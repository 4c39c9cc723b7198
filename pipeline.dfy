/** `link_paperless_docs`: check the selector, fetch the four collections,
    resolve the documents' references, parse the folder tags, then
    synchronize the destination tree. */
module Pipeline {
  import opened Wrappers
  import opened Paths
  import opened FileSystem
  import opened Documents
  import opened Config
  import opened Fetch
  import opened Reconcile
  import opened Synchronizer

  const CorrespondentsPath := "/api/correspondents/"
  const DocumentTypesPath := "/api/document_types/"
  const TagsPath := "/api/tags/"
  const DocumentsPath := "/api/documents/"

  /** The API's four collection endpoints. */
  datatype Apis = Apis(
    correspondents: Api<Record>,
    documentTypes: Api<Record>,
    tags: Api<Record>,
    documents: Api<Document>)

  /** Why a run stops before touching the filesystem. */
  datatype Error =
    | Usage(usage: UsageError)
    | Http(fetch: FetchError)
    | Lookup(lookup: LookupError)
    | BadFolderTag(part: string)

  ghost function CorrespondentCrawl(apis: Apis, c: Connection): Crawl<Record>
    requires Finite(apis.correspondents, c, UrlJoin(c.apiBaseUrl, CorrespondentsPath), CollectionParams())
  {
    Fetched(apis.correspondents, c, UrlJoin(c.apiBaseUrl, CorrespondentsPath), CollectionParams())
  }

  ghost function DocumentTypeCrawl(apis: Apis, c: Connection): Crawl<Record>
    requires Finite(apis.documentTypes, c, UrlJoin(c.apiBaseUrl, DocumentTypesPath), CollectionParams())
  {
    Fetched(apis.documentTypes, c, UrlJoin(c.apiBaseUrl, DocumentTypesPath), CollectionParams())
  }

  ghost function TagCrawl(apis: Apis, c: Connection): Crawl<Record>
    requires Finite(apis.tags, c, UrlJoin(c.apiBaseUrl, TagsPath), CollectionParams())
  {
    Fetched(apis.tags, c, UrlJoin(c.apiBaseUrl, TagsPath), CollectionParams())
  }

  ghost function DocumentCrawl(apis: Apis, c: Connection, filterTagId: Option<int>): Crawl<Document>
    requires Finite(apis.documents, c, UrlJoin(c.apiBaseUrl, DocumentsPath), DocumentParams(filterTagId))
  {
    Fetched(apis.documents, c, UrlJoin(c.apiBaseUrl, DocumentsPath), DocumentParams(filterTagId))
  }

  /** Every fetch the command gets to makes a finite chain of pages. */
  ghost predicate Terminating(apis: Apis, c: Connection, filterTagId: Option<int>)
  {
    && Finite(apis.correspondents, c, UrlJoin(c.apiBaseUrl, CorrespondentsPath), CollectionParams())
    && (CorrespondentCrawl(apis, c).result.Success? ==>
          Finite(apis.documentTypes, c, UrlJoin(c.apiBaseUrl, DocumentTypesPath), CollectionParams()))
    && (CorrespondentCrawl(apis, c).result.Success? && DocumentTypeCrawl(apis, c).result.Success? ==>
          Finite(apis.tags, c, UrlJoin(c.apiBaseUrl, TagsPath), CollectionParams()))
    && (CorrespondentCrawl(apis, c).result.Success? && DocumentTypeCrawl(apis, c).result.Success? && TagCrawl(apis, c).result.Success? ==>
          Finite(apis.documents, c, UrlJoin(c.apiBaseUrl, DocumentsPath), DocumentParams(filterTagId)))
  }

  /** What the command decides before touching the filesystem: the URLs it
      requests and either the resolved documents with the folder-tag ids,
      or the error that ends the run. */
  datatype Plan = Plan(urls: seq<string>, result: Result<(seq<Hydrated>, set<int>), Error>)

  ghost function PlanOf(apis: Apis, c: Connection, folderTags: Option<string>, filterTagId: Option<int>, all: bool): Plan
    requires CheckSelector(filterTagId, all).None? ==> Terminating(apis, c, filterTagId)
  {
    if CheckSelector(filterTagId, all).Some? then Plan([], Failure(Usage(CheckSelector(filterTagId, all).value)))
    else
      var cs := CorrespondentCrawl(apis, c);
      if cs.result.Failure? then Plan(cs.urls, Failure(Http(cs.result.error)))
      else
        var dts := DocumentTypeCrawl(apis, c);
        if dts.result.Failure? then Plan(cs.urls + dts.urls, Failure(Http(dts.result.error)))
        else
          var tags := TagCrawl(apis, c);
          if tags.result.Failure? then Plan(cs.urls + dts.urls + tags.urls, Failure(Http(tags.result.error)))
          else
            var docs := DocumentCrawl(apis, c, filterTagId);
            var urls := cs.urls + dts.urls + tags.urls + docs.urls;
            if docs.result.Failure? then Plan(urls, Failure(Http(docs.result.error)))
            else
              match ResolveEach(docs.result.value, IndexById(cs.result.value), IndexById(dts.result.value), IndexById(tags.result.value))
              case Failure(e) => Plan(urls, Failure(Lookup(e)))
              case Success(hydrated) =>
                match ParseFolderTags(folderTags)
                case Failure(part) => Plan(urls, Failure(BadFolderTag(part)))
                case Success(ids) => Plan(urls, Success((hydrated, ids)))
  }

  /** A usage error is raised before any request. */
  lemma UsageErrorRequestsNothing(apis: Apis, c: Connection, folderTags: Option<string>, filterTagId: Option<int>, all: bool)
    requires TagGiven(filterTagId) == all
    ensures PlanOf(apis, c, folderTags, filterTagId, all).urls == []
    ensures PlanOf(apis, c, folderTags, filterTagId, all).result.Failure?
  {
  }

  /** Everything the command does before touching the filesystem: the
      selector check, the four fetches, the resolution loop and the
      folder-tag parse. */
  method Prepare(apis: Apis, c: Connection, folderTags: Option<string>, filterTagId: Option<int>, all: bool)
      returns (result: Result<(seq<Hydrated>, set<int>), Error>, urls: seq<string>)
    requires CheckSelector(filterTagId, all).None? ==> Terminating(apis, c, filterTagId)
    ensures Plan(urls, result) == PlanOf(apis, c, folderTags, filterTagId, all)
  {
    var usage := CheckSelector(filterTagId, all);
    if usage.Some? {
      return Failure(Usage(usage.value)), [];
    }
    var cs, csUrls := FetchPaginated(apis.correspondents, c, CorrespondentsPath, CollectionParams());
    urls := csUrls;
    if cs.Failure? {
      return Failure(Http(cs.error)), urls;
    }
    var dts, dtsUrls := FetchPaginated(apis.documentTypes, c, DocumentTypesPath, CollectionParams());
    urls := urls + dtsUrls;
    if dts.Failure? {
      return Failure(Http(dts.error)), urls;
    }
    var tags, tagsUrls := FetchPaginated(apis.tags, c, TagsPath, CollectionParams());
    urls := urls + tagsUrls;
    if tags.Failure? {
      return Failure(Http(tags.error)), urls;
    }
    var docs, docsUrls := FetchPaginated(apis.documents, c, DocumentsPath, DocumentParams(filterTagId));
    urls := urls + docsUrls;
    if docs.Failure? {
      return Failure(Http(docs.error)), urls;
    }
    var hydrated := ResolveAll(docs.value, IndexById(cs.value), IndexById(dts.value), IndexById(tags.value));
    if hydrated.Failure? {
      return Failure(Lookup(hydrated.error)), urls;
    }
    var ids := ParseFolderTags(folderTags);
    if ids.Failure? {
      return Failure(BadFolderTag(ids.error)), urls;
    }
    result := Success((hydrated.value, ids.value));
  }

  /** The command. Every error ends it before the filesystem is touched;
      a dry run never changes the filesystem; a run that gets through
      synchronizes the destination exactly as `Sync` specifies. */
  method LinkPaperlessDocs(apis: Apis, c: Connection, src: Path, root: Path, dryRun: bool,
                           folderTags: Option<string>, filterTagId: Option<int>, all: bool, fs: Disk)
      returns (r: Result<Report, Error>, urls: seq<string>)
    requires fs.Valid()
    requires CheckSelector(filterTagId, all).None? ==> Terminating(apis, c, filterTagId)
    modifies fs
    ensures fs.Valid()
    ensures var plan := PlanOf(apis, c, folderTags, filterTagId, all);
            && urls == plan.urls
            && (plan.result.Failure? ==> r == Failure(plan.result.error) && fs.State() == old(fs.State()))
            && (plan.result.Success? ==>
                  && r.Success?
                  && (fs.State(), r.value) == Sync(old(fs.State()), Targets(plan.result.value.0, src, root, plan.result.value.1), root, dryRun))
    ensures dryRun ==> fs.State() == old(fs.State())
  {
    var prepared;
    prepared, urls := Prepare(apis, c, folderTags, filterTagId, all);
    if prepared.Failure? {
      return Failure(prepared.error), urls;
    }
    var (docs, ids) := prepared.value;
    var report := LinkDocumentsToDst(fs, src, root, docs, dryRun, ids);
    if dryRun {
      SyncDryRunPure(old(fs.State()), Targets(docs, src, root, ids), root);
    }
    r := Success(report);
  }
}
