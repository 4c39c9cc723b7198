# Paperless link synchronisation, modelled in Dafny

`scripts/link-paperless-docs.py` mirrors a Paperless document store as a
browsable tree of hard links. It does the following, in order:

1. Check that exactly one document selector is given (`--filter-tag-id` or `--all`).
2. Fetch the correspondents, document types, tags and documents from the API, page by page.
3. Resolve each document's references through the fetched maps.
4. Parse `--folder-tags`.
5. Synchronise the destination tree, which itself has three steps:
   - snapshot the PDFs below the destination root;
   - link every document from `archive/` (or else `originals/`) to
     `root/<tag layer>/<type>/<YYYY-MM>/<YYYY-MM-DD> <correspondent> <title>.pdf`;
   - remove every snapshot PDF that no document claimed, then every directory left empty.

The model has the following parts:

- **Paths** (`paths.dfy`). A path is a sequence of components, and `[]` is "/".
  `PathLess` is pathlib's order: components compared as strings, by code point.
- **FileSystem** (`filesystem.dfy`). A `Tree` of files (each naming an inode) and directories.
  The class `Disk` holds the same two fields and performs the four operating-system calls
  (`mkdir(parents=True, exist_ok=True)`, `os.link`, `os.remove`, `rmdir`).
  Each call has a precondition it needs in order to succeed.
- **Decimal**, **Text** (`decimal.dfy`, `text.dfy`). The number formatting and parsing
  the script relies on: `str`, `int`, zero-padded ids, and `split`/`join` on one character.
- **Config** (`config.dfy`). The connection's `cert` and `headers`, the selector checks,
  the query parameters, and the `--folder-tags` parse.
- **Fetch** (`fetch.dfy`). `query` and `fetch_data_paginated`. Each API endpoint is a
  function from requests to responses. `urljoin` is modelled for a base with a lower-case
  `http` or `https` scheme and a path starting with a single "/".
- **Documents** (`documents.dfy`). The records and the reference-resolution loop.
- **Layout** (`layout.dfy`). The destination path and the two source paths of a document.
- **Reconcile** (`reconcile.dfy`). The specification of one run, as functions of the tree
  before it:
  - `LinkStep` and `LinkPhase`: the per-document loop;
  - `Sync`: a whole run;
  - `PrunedDirs`: the empty-directory sweep.

  It also holds what is proved about a run: dry-run purity, the linked and stale sets in
  closed form, hard links sharing the source's inode, no empty directories left, and idempotence.
- **Synchronizer** (`synchronizer.dfy`). The imperative loops over a `Disk`. Each is proved
  to end in exactly the state `Reconcile` specifies.
- **Pipeline** (`pipeline.dfy`). The command as a whole. Every error stops it before the
  filesystem is touched, and a dry run never changes the filesystem.

Some behaviours of the code that a reader might not expect, and that the model keeps:

- **A second run is not mutation-free.** With unchanged inputs, the code still makes the
  parent directory of every document, including a document whose source file is missing.
  The sweep then removes that directory again. What is proved for a second run
  (`Reconcile.SyncIdempotent`) is that it ends in the same tree and finds nothing stale.
- **An incomplete certificate/key pair is not an error.** The client certificate is simply
  omitted (`Config.Cert`).
- **Any 2xx status is accepted.** A status other than 200 is logged, but only a status
  outside 2xx aborts, because `raise_for_status` lets every 2xx response through (`Fetch.Query`).
- **An existing destination file is never refreshed.** `link_file` keeps a file already at
  the destination even when it is not a link to the document's current source, and still
  counts it as linked. If Paperless replaces `archive/<id>.pdf`, the mirror keeps the old
  content for good (`Reconcile.SyncKeepsExistingDestination`).

## Model

| member | source | states |
|---|---|---|
| Config.Cert | scripts/link-paperless-docs.py:39-47 | a certificate pair exactly when both the certificate and the key are non-empty, and then that pair |
| Config.Headers | scripts/link-paperless-docs.py:49-58 | only the Authorization header; present exactly when the token is non-empty; its value is "Token " followed by the token |
| Config.CheckSelector | scripts/link-paperless-docs.py:322-326 | missing selector exactly when neither a non-zero tag id nor `--all` is given; a conflict exactly when both are; otherwise no error |
| Config.CollectionParams | scripts/link-paperless-docs.py:335-363 | the support fetches send only `page_size` = 1000 |
| Config.DocumentParams | scripts/link-paperless-docs.py:365-371 | `truncate_content` = "true" and `page_size` = 1000 always; `tags__id__all` exactly when a non-zero tag id is given, with that id |
| Config.SelectorDecidesFilter | scripts/link-paperless-docs.py:365-371 | once the selector check passes, the document fetch is tag-filtered exactly when `--all` was not given |
| Config.ParseIdsSucceeds | scripts/link-paperless-docs.py:392-394 | the folder-tag parse succeeds exactly when every comma-separated part is an integer |
| Config.ParseIdsValue | scripts/link-paperless-docs.py:392-394 | a successful parse yields exactly the set of the parts' values |
| Config.ParseIdsFirstFailure | scripts/link-paperless-docs.py:392-394 | a failed parse reports the first part `int()` rejects |
| Config.ParseFolderTags | scripts/link-paperless-docs.py:392-394 | an absent or empty option is the empty set; otherwise the option is split on commas and each part parsed |
| Config.FolderTagsRoundTrip | scripts/link-paperless-docs.py:392-394 | writing any list of ids comma-separated and parsing it back gives exactly the set of those ids; an empty list gives the empty set |
| Decimal.ParseIntToString | scripts/link-paperless-docs.py:393 | `int(str(n)) == n` for every integer |
| Decimal.ParseZeroPad | scripts/link-paperless-docs.py:442-443 | zero-padding a number never changes the number its digits stand for |
| Decimal.ZeroPad | scripts/link-paperless-docs.py:442-443 | all digits; exactly the width when the number fits in it, otherwise the unpadded number |
| Text.JoinWith | scripts/link-paperless-docs.py:449-450 | joining nothing gives ""; one item gives that item; a non-empty item makes the result non-empty |
| Text.Split | scripts/link-paperless-docs.py:393 | at least one part, and no part contains the separator |
| Text.JoinSplit | scripts/link-paperless-docs.py:393 | joining the parts of a split with the separator gives back the string |
| Text.SplitJoin | scripts/link-paperless-docs.py:393 | splitting a join of separator-free parts gives back the parts |
| Documents.IndexById | scripts/link-paperless-docs.py:335-363 | the map's keys are exactly the records' ids, and each id maps to a record carrying it |
| Documents.IndexByIdLastWins | scripts/link-paperless-docs.py:335-343 | an id maps to the last record carrying it |
| Documents.ResolveTags | scripts/link-paperless-docs.py:390 | succeeds exactly when every tag id is in the map, giving the records in order; otherwise fails on the first missing id |
| Documents.ResolveDocument | scripts/link-paperless-docs.py:383-390 | succeeds exactly when every truthy reference and every tag id is found; the correspondent and type are looked up only for truthy ids; a failure names the missing correspondent, else the missing type, else the first missing tag |
| Documents.ResolveEachSucceeds | scripts/link-paperless-docs.py:383-390 | resolving all documents succeeds exactly when each one resolves |
| Documents.ResolveEachValues | scripts/link-paperless-docs.py:383-390 | a successful resolution gives each document's own resolution, in order |
| Documents.ResolveEachFailsFirst | scripts/link-paperless-docs.py:383-390 | a failed resolution carries the error of the first document that does not resolve |
| Documents.ResolveAll | scripts/link-paperless-docs.py:383-390 | the resolution loop returns exactly what `ResolveEach` specifies |
| Documents.ResolvedTagIds | scripts/link-paperless-docs.py:446-448 | a resolved document's tag records carry exactly its tag ids, in order, so looking names up in the tag map matches the resolved tags |
| Fetch.Query | scripts/link-paperless-docs.py:78-98 | succeeds exactly on a 2xx status with a valid page, and returns that page; other statuses fail with the status; an invalid body fails with the URL |
| Fetch.UrlJoin | scripts/link-paperless-docs.py:139 | a base without "://" gives the path alone; otherwise the result is the base up to the first '/', '?' or '#' after its first "://", followed by the path |
| Fetch.OriginEndUnique | scripts/link-paperless-docs.py:139 | that cut point is unique, so the joined URL is determined |
| Fetch.UrlJoinHostOnly | scripts/link-paperless-docs.py:139 | a base made only of scheme and host is extended by the path |
| Fetch.FetchedFollowsNext | scripts/link-paperless-docs.py:139-148 | a failing page stops the crawl with its error; a page without `next` ends it with that page's items; otherwise the crawl continues at `next` after this page's items |
| Fetch.FetchedStartsAt | scripts/link-paperless-docs.py:139-142 | the first request goes to the joined URL |
| Fetch.FetchPaginated | scripts/link-paperless-docs.py:113-148 | the loop requests exactly the crawl's URLs and returns its items, or its error |
| Layout.FileName | scripts/link-paperless-docs.py:443 | the name starts with the day and a space, and ends in ".pdf" |
| Layout.FolderTagNamesSelects | scripts/link-paperless-docs.py:446-448 | the matching names are empty exactly when no tag is a folder tag; each is the name of a folder tag; every folder tag's name is among them |
| Layout.FolderTagNamesOne | scripts/link-paperless-docs.py:446-448 | one tag contributes its name exactly when it is a folder tag |
| Layout.FolderTagNamesAppend | scripts/link-paperless-docs.py:446-448 | the names of two tag lists in a row are the first list's names followed by the second's, so order and repeats follow the document's tags |
| Layout.TagLayerOrder | scripts/link-paperless-docs.py:446-450 | two folder tags give the layer "first-second", in the document's tag order |
| Layout.TagLayerPresence | scripts/link-paperless-docs.py:445-450 | the tag layer is "" without folder tags, and non-empty when a folder tag has a non-empty name |
| Layout.ComposeKeepsSegments | scripts/link-paperless-docs.py:452-454 | non-empty segments each add one component |
| Layout.ComposeAppend | scripts/link-paperless-docs.py:452-454 | composing in two steps is composing once |
| Layout.DestinationPath | scripts/link-paperless-docs.py:439-454 | the destination lies below the root, and its last two components are the month and the file name |
| Layout.DestinationComponents | scripts/link-paperless-docs.py:439-454 | the destination is the root, then the tag layer and the type name (each only when non-empty), then the month and the file name |
| Layout.SevenDigits | scripts/link-paperless-docs.py:463-464 | for 0 <= id < 10^7, exactly seven digits whose value is the id; otherwise only digits and '-' |
| Layout.DestinationIsNoSource | scripts/link-paperless-docs.py:443-464 | no destination path equals any archive or originals path |
| Layout.InvoiceExample | scripts/link-paperless-docs.py:439-464 | document 1 "Invoice" from "Acme", of type "Invoice", created 2024-03-02, goes to `root/Invoice/2024-03/2024-03-02 Acme Invoice.pdf` from `archive/0000001.pdf` or `originals/0000001.pdf` |
| FileSystem.MkDirs | scripts/link-paperless-docs.py:459 | files unchanged, directories only added, the path itself a directory, well-formedness kept |
| FileSystem.Disk.MakeDirs | scripts/link-paperless-docs.py:459 | the new state is `MkDirs` of the old one |
| FileSystem.Disk.Link | scripts/link-paperless-docs.py:563 | the destination becomes a second name of the source's inode; nothing else changes |
| FileSystem.Disk.Remove | scripts/link-paperless-docs.py:520 | exactly that file is gone |
| FileSystem.Disk.Rmdir | scripts/link-paperless-docs.py:529 | only an empty directory is removed, and nothing else changes |
| Paths.PathLessTransitive | scripts/link-paperless-docs.py:523 | pathlib's order is transitive |
| Paths.PathLessTotal | scripts/link-paperless-docs.py:523 | any two distinct paths are ordered |
| Paths.PathLessAsymmetric | scripts/link-paperless-docs.py:523 | pathlib's order is asymmetric |
| Paths.AncestorSortsFirst | scripts/link-paperless-docs.py:523 | a directory sorts before everything below it, so a reverse sort visits children first |
| Reconcile.SourceOf | scripts/link-paperless-docs.py:463-486 | the archived copy when it exists, otherwise the original, otherwise none |
| Reconcile.TargetsKeepSourcesApart | scripts/link-paperless-docs.py:452-464 | the documents' destinations are never source paths and always lie below the root |
| Reconcile.LinkStepFiles | scripts/link-paperless-docs.py:456-486 | one document keeps every file and adds at most its destination, as a link to its source |
| Reconcile.LinkStepLinked | scripts/link-paperless-docs.py:466-479 | one document records its destination exactly when its source exists |
| Reconcile.LinkPhaseDryRunPure | scripts/link-paperless-docs.py:435-486 | a dry run's link phase changes nothing |
| Reconcile.LinkPhaseFiles | scripts/link-paperless-docs.py:435-486 | linking never removes or overwrites a file and adds files only at destinations |
| Reconcile.LinkPhaseLinked | scripts/link-paperless-docs.py:433-486 | the linked set is the destinations of exactly the documents whose source exists, dry run or not |
| Reconcile.LinkPhaseNewLinks | scripts/link-paperless-docs.py:435-486 | every new file shares the inode of the source of the first document, in order, that has it as destination and whose source exists (the first writer wins) |
| Reconcile.LinkPhaseComplete | scripts/link-paperless-docs.py:435-486 | every document whose source exists ends with something at its destination, recorded as linked |
| Reconcile.LinkPhaseDirs | scripts/link-paperless-docs.py:456-459 | the directories afterwards are the old ones plus every document's parent chain |
| Reconcile.PdfNamedDirectoryIsStale | scripts/link-paperless-docs.py:431 | with the snapshot as written, a type directory named "Invoice.pdf" counts as a stale file |
| Reconcile.SyncDryRunPure | scripts/link-paperless-docs.py:420-529 | a dry run leaves the filesystem exactly as it was |
| Reconcile.SyncDecisions | scripts/link-paperless-docs.py:431-514 | linked = destinations of documents whose source exists; stale = PDFs below the root at the start minus linked; the same for a dry run |
| Reconcile.SyncSweep | scripts/link-paperless-docs.py:514-520 | an unclaimed PDF below the root is gone; every other file is still there with its inode |
| Reconcile.SyncMissingSourceIsStale | scripts/link-paperless-docs.py:480-486 | a PDF at the destination of documents whose sources are all missing is stale and removed |
| Reconcile.SyncComplete | scripts/link-paperless-docs.py:456-479 | a document whose source exists has a file at its destination afterwards, unless a directory is at that path, either present before the run or made during it |
| Reconcile.SyncKeepsExistingDestination | scripts/link-paperless-docs.py:557-570 | a file already at the destination of a document with a source stays, with its old inode, and is counted as linked |
| Reconcile.SyncLinksShareInode | scripts/link-paperless-docs.py:435-486 | every file a run adds is a hard link to the source of the first document, in order, with that destination and an existing source |
| Reconcile.PrunedLeavesNoEmptyDir | scripts/link-paperless-docs.py:522-529 | after the sweep no directory below the root is empty, the root is kept, and the tree stays well-formed |
| Reconcile.FirstRunSources | scripts/link-paperless-docs.py:463-473 | a run leaves which source each document has unchanged |
| Reconcile.FirstRunLinks | scripts/link-paperless-docs.py:466-479 | a run leaves a file at the destination of every document whose source exists |
| Reconcile.FirstRunNoUnclaimed | scripts/link-paperless-docs.py:514-520 | a run leaves no PDF below the root that no document claims |
| Reconcile.FirstRunDirs | scripts/link-paperless-docs.py:522-529 | the directories a run leaves are its `mkdir` results, pruned |
| Reconcile.RerunChangesNothing | scripts/link-paperless-docs.py:420-529 | a run over a settled tree leaves it as it is and finds nothing stale |
| Reconcile.SyncIdempotent | scripts/link-paperless-docs.py:420-529 | a second run with the same documents ends in the tree the first left, with the same linked set and nothing stale |
| Synchronizer.MaxPath | scripts/link-paperless-docs.py:523 | the greatest path of a set in pathlib's order |
| Synchronizer.SortDescending | scripts/link-paperless-docs.py:523 | the same paths, strictly descending in pathlib's order |
| Synchronizer.LinkFile | scripts/link-paperless-docs.py:532-570 | a missing source fails with that path and changes nothing; otherwise the state, linked set and warning are exactly `LinkInto` |
| Synchronizer.RemoveStaleFiles | scripts/link-paperless-docs.py:514-520 | outside a dry run exactly the stale files are removed; directories untouched |
| Synchronizer.EmptyWhenNoFileBelow | scripts/link-paperless-docs.py:524 | when the loop visits a directory, the directory is empty exactly when no file lies below it |
| Synchronizer.RemoveEmptyDirs | scripts/link-paperless-docs.py:523-529 | the reverse-sorted loop leaves exactly `PrunedDirs`; a dry run leaves the tree as it was |
| Synchronizer.RemoveStaleFilesAndEmptyDirs | scripts/link-paperless-docs.py:492-529 | removes the unlinked snapshot files, then the empty directories, and leaves no empty directory below the root |
| Synchronizer.LinkDocument | scripts/link-paperless-docs.py:435-486 | one loop iteration is exactly `LinkStep` |
| Synchronizer.LinkAll | scripts/link-paperless-docs.py:435-486 | the per-document loop is exactly `LinkPhase` |
| Synchronizer.Synchronize | scripts/link-paperless-docs.py:420-489 | the new state and the report are exactly `Sync`, and no directory below the root is left empty |
| Synchronizer.LinkDocumentsToDst | scripts/link-paperless-docs.py:399-489 | `link_documents_to_dst` is exactly `Sync` over the documents' targets |
| Pipeline.UsageErrorRequestsNothing | scripts/link-paperless-docs.py:322-326 | a usage error is raised before any request is made |
| Pipeline.Prepare | scripts/link-paperless-docs.py:322-394 | the URLs requested and the resolved documents and folder tags, or the error, are exactly `PlanOf` |
| Pipeline.LinkPaperlessDocs | scripts/link-paperless-docs.py:292-396 | an error ends the command with the filesystem untouched; otherwise the filesystem and report are exactly `Sync`; a dry run never changes the filesystem |

## Left out

- `scripts/google-ocr.py` is not part of this model.
- HTTP transport is not modelled: httpx, TLS, timeouts and `DEFAULT_TIMEOUT`. Each endpoint
  is a function from a request to a status code and an optional parsed page.
- JSON decoding and pydantic validation are not modelled. A body either parses into a page or it does not.
- Each record keeps only the fields the placement uses.
- Logging and every printed "Would …" message are left out, since neither affects state.
  The model keeps the warnings logged for a missing source and an occupied destination.
- Fetch.UrlJoin: covers a base with a lower-case `http` or `https` scheme and a path that starts
  with a single "/", which is all the command uses. Relative paths are not modelled, and neither
  are several other `urljoin` rules:
  - an upper-case scheme is lower-cased (`HTTPS://h` gives `https://h/...`);
  - a scheme outside `uses_relative` (`foo://x`) gives the path alone;
  - a "://" after characters that cannot form a scheme (`a/b://x`) is not a scheme;
  - a base such as `http:host`, without "//", gives `http:///...`.
- FileSystem.Disk.Link: the script catches no exception, so a failing system call would stop
  the run part-way. The model has no such failure. Examples are `os.link` failing with
  EXDEV (source and mirror on different filesystems), EPERM, EACCES or EMLINK, and a
  `PermissionError` from `mkdir`, `os.remove` or `rmdir`. In each case the directories and
  links already made stay, and the sweep never runs. The model treats the preconditions of
  the four calls as sufficient for them to succeed.
- Fetch.FetchPaginated: assumes the chain of `next` links ends (`Finite`). An API that
  pages forever is excluded by the precondition, not modelled as a hang.
- Pipeline.LinkPaperlessDocs: the API is four separate endpoint functions, one per collection path.
  It requires that every fetch the command gets to terminates (`Terminating`).
- Decimal.ParseInt: accepts ASCII digits with an optional sign and surrounding whitespace.
  Whitespace here means space, tab, line feed, carriage return, vertical tab and form feed.
  `int()` also accepts things that are not modelled: underscores between digits, non-ASCII digits,
  the separators `\x1c`–`\x1f`, and other Unicode whitespace around the number.
- Layout.DestinationPath: names containing "/", absolute names and the name "." are not modelled.
  pathlib would split such a name into several components, restart the path, or drop a
  "." component. The model keeps a tag layer or type named "." as a folder.
- String paths are not modelled: `..`, symlinks and normalisation are left out.
  Paths are given as component lists.
- Years above 9999 and `strftime` details beyond zero-padded numbers are not modelled.
- FileSystem.Disk.MakeDirs: a file in the way of `mkdir` (`FileExistsError`) is not
  modelled. Such an entry is simply also counted as a directory.
- Reconcile.SourceOf: "exists" means "is a file". A directory at a source path is not modelled.
- Synchronizer.LinkFile: outside a dry run it requires the destination's parent directory
  to exist. The per-document loop always makes that directory first.
- Reconcile.SyncIdempotent: proved as equality of the final tree, the linked set and an empty
  stale set, not as "no mutation"; see "A second run is not mutation-free" above. It holds under these conditions:
  - no source lies below the root;
  - no destination is a directory, either present before the run or made during it.

  Reconcile.TargetsKeepSourcesApart shows the documents' targets need no further condition.
- Reconcile.PdfFilesBelow: the snapshot is taken over files only, the evidently intended
  behaviour (see Findings). The code as written also matches directories (`Reconcile.RglobPdf`).
- Concurrency, external changes to the tree during a run, and crashes part-way are not modelled.

## Findings

| source | as written | input that shows it | evidently intended | confidence | as-written member | corrected member |
|---|---|---|---|---|---|---|
| scripts/link-paperless-docs.py:431 | `set(dst_path.rglob("*.pdf"))` matches directories whose name ends in ".pdf". Such a directory lands in the stale set, and `os.remove` then fails on it | a document type named "Invoice.pdf": the second run finds `dst/Invoice.pdf` in the snapshot, and no document links it | snapshot only PDF files | not executed | Reconcile.PdfNamedDirectoryIsStale | Reconcile.PdfFilesBelow |
