/** The document store's records and the join that resolves a document's
    correspondent, document type and tags by id (reference resolution in
    `link_paperless_docs`). */
module Documents {
  import opened Wrappers

  /** A correspondent, document type or tag: the fields placement uses. */
  datatype Record = Record(id: int, name: string)

  /** A calendar date (`created_date`). */
  datatype Date = Date(year: nat, month: nat, day: nat)

  datatype Document = Document(
    id: int,
    correspondent: Option<int>,
    documentType: Option<int>,
    title: string,
    tags: seq<int>,
    created: Date)

  /** A document with `correspondent_obj`, `document_type_obj` and
      `tags_obj` filled in. */
  datatype Hydrated = Hydrated(
    doc: Document,
    correspondent: Option<Record>,
    documentType: Option<Record>,
    tags: seq<Record>)

  /** The `KeyError` a lookup raises, with the id that was missing. */
  datatype LookupError =
    | MissingCorrespondent(id: int)
    | MissingDocumentType(id: int)
    | MissingTag(id: int)

  /** Python truthiness of an optional id: `None` and `0` are both false. */
  predicate Truthy(id: Option<int>)
  {
    id.Some? && id.value != 0
  }

  /** `{r.id: r for r in records}`: every id maps to the last record
      carrying it. */
  function IndexById(records: seq<Record>): (m: map<int, Record>)
    ensures m.Keys == set r | r in records :: r.id
    ensures forall k :: k in m ==> m[k].id == k && m[k] in records
  {
    if records == [] then map[]
    else
      var last := records[|records| - 1];
      var front := records[..|records| - 1];
      assert records == front + [last];
      assert (set r | r in records :: r.id) == (set r | r in front :: r.id) + {last.id};
      assert forall i :: 0 <= i < |front| ==> records[i] == front[i];
      IndexById(front)[last.id := last]
  }

  /** A record is what its id maps to unless a later record has the same
      id. */
  lemma {:induction false} IndexByIdLastWins(records: seq<Record>, i: nat)
    requires i < |records|
    requires forall j :: i < j < |records| ==> records[j].id != records[i].id
    ensures IndexById(records)[records[i].id] == records[i]
  {
    var front := records[..|records| - 1];
    if i < |records| - 1 {
      assert front[i] == records[i];
      IndexByIdLastWins(front, i);
    }
  }

  /** `[tag_map[tag_id] for tag_id in ids]`: the first missing id raises. */
  function ResolveTags(ids: seq<int>, tagMap: map<int, Record>): (r: Result<seq<Record>, LookupError>)
    ensures r.Success? <==> forall i :: 0 <= i < |ids| ==> ids[i] in tagMap
    ensures r.Success? ==> |r.value| == |ids| && forall i :: 0 <= i < |ids| ==> r.value[i] == tagMap[ids[i]]
    ensures r.Failure? ==> exists i :: 0 <= i < |ids| && ids[i] !in tagMap && r.error == MissingTag(ids[i])
                             && forall j :: 0 <= j < i ==> ids[j] in tagMap
  {
    if ids == [] then Success([])
    else if ids[0] !in tagMap then Failure(MissingTag(ids[0]))
    else
      match ResolveTags(ids[1..], tagMap)
      case Failure(e) => Failure(e)
      case Success(rest) => Success([tagMap[ids[0]]] + rest)
  }

  /** Resolve one document: the correspondent and the document type only
      when their id is truthy, then the tags in order. */
  function ResolveDocument(doc: Document, correspondents: map<int, Record>, documentTypes: map<int, Record>,
                           tagMap: map<int, Record>): (r: Result<Hydrated, LookupError>)
    ensures r.Success? <==>
              && (Truthy(doc.correspondent) ==> doc.correspondent.value in correspondents)
              && (Truthy(doc.documentType) ==> doc.documentType.value in documentTypes)
              && forall i :: 0 <= i < |doc.tags| ==> doc.tags[i] in tagMap
    ensures r.Success? ==>
              && r.value.doc == doc
              && r.value.correspondent == (if Truthy(doc.correspondent) then Some(correspondents[doc.correspondent.value]) else None)
              && r.value.documentType == (if Truthy(doc.documentType) then Some(documentTypes[doc.documentType.value]) else None)
              && |r.value.tags| == |doc.tags|
              && forall i :: 0 <= i < |doc.tags| ==> r.value.tags[i] == tagMap[doc.tags[i]]
    ensures r.Failure? && Truthy(doc.correspondent) && doc.correspondent.value !in correspondents ==>
              r.error == MissingCorrespondent(doc.correspondent.value)
    ensures r.Failure? && !(Truthy(doc.correspondent) && doc.correspondent.value !in correspondents)
            && Truthy(doc.documentType) && doc.documentType.value !in documentTypes ==>
              r.error == MissingDocumentType(doc.documentType.value)
    ensures r.Failure? && !(Truthy(doc.correspondent) && doc.correspondent.value !in correspondents)
            && !(Truthy(doc.documentType) && doc.documentType.value !in documentTypes) ==>
              exists i :: 0 <= i < |doc.tags| && doc.tags[i] !in tagMap && r.error == MissingTag(doc.tags[i])
                          && forall j :: 0 <= j < i ==> doc.tags[j] in tagMap
  {
    if Truthy(doc.correspondent) && doc.correspondent.value !in correspondents then
      Failure(MissingCorrespondent(doc.correspondent.value))
    else if Truthy(doc.documentType) && doc.documentType.value !in documentTypes then
      Failure(MissingDocumentType(doc.documentType.value))
    else
      match ResolveTags(doc.tags, tagMap)
      case Failure(e) => Failure(e)
      case Success(tags) =>
        Success(Hydrated(
          doc,
          if Truthy(doc.correspondent) then Some(correspondents[doc.correspondent.value]) else None,
          if Truthy(doc.documentType) then Some(documentTypes[doc.documentType.value]) else None,
          tags))
  }

  /** Every document resolved in order, or the failure of the first one
      that does not resolve. */
  function ResolveEach(docs: seq<Document>, correspondents: map<int, Record>, documentTypes: map<int, Record>,
                       tagMap: map<int, Record>): Result<seq<Hydrated>, LookupError>
  {
    if docs == [] then Success([])
    else
      match ResolveDocument(docs[0], correspondents, documentTypes, tagMap)
      case Failure(e) => Failure(e)
      case Success(h) =>
        match ResolveEach(docs[1..], correspondents, documentTypes, tagMap)
        case Failure(e) => Failure(e)
        case Success(hs) => Success([h] + hs)
  }

  /** Resolution succeeds exactly when every document resolves. */
  lemma {:induction false} ResolveEachSucceeds(docs: seq<Document>, correspondents: map<int, Record>,
                                               documentTypes: map<int, Record>, tagMap: map<int, Record>)
    ensures ResolveEach(docs, correspondents, documentTypes, tagMap).Success? <==>
              forall i :: 0 <= i < |docs| ==> ResolveDocument(docs[i], correspondents, documentTypes, tagMap).Success?
  {
    if docs != [] {
      var rest := docs[1..];
      ResolveEachSucceeds(rest, correspondents, documentTypes, tagMap);
      assert forall i :: 1 <= i < |docs| ==> docs[i] == rest[i - 1];
    }
  }

  /** A successful resolution gives each document's resolution, in order. */
  lemma {:induction false} ResolveEachValues(docs: seq<Document>, correspondents: map<int, Record>,
                                             documentTypes: map<int, Record>, tagMap: map<int, Record>)
    requires ResolveEach(docs, correspondents, documentTypes, tagMap).Success?
    ensures var hs := ResolveEach(docs, correspondents, documentTypes, tagMap).value;
            && |hs| == |docs|
            && forall i :: 0 <= i < |docs| ==> ResolveDocument(docs[i], correspondents, documentTypes, tagMap) == Success(hs[i])
  {
    if docs != [] {
      var rest := docs[1..];
      ResolveEachValues(rest, correspondents, documentTypes, tagMap);
      var h := ResolveDocument(docs[0], correspondents, documentTypes, tagMap).value;
      var tail := ResolveEach(rest, correspondents, documentTypes, tagMap).value;
      var hs := ResolveEach(docs, correspondents, documentTypes, tagMap).value;
      assert hs == [h] + tail;
      forall i | 1 <= i < |docs|
        ensures ResolveDocument(docs[i], correspondents, documentTypes, tagMap) == Success(hs[i])
      {
        assert docs[i] == rest[i - 1] && hs[i] == tail[i - 1];
      }
    }
  }

  /** A failed resolution reports the error of the first document that
      does not resolve. */
  lemma {:induction false} ResolveEachFailsFirst(docs: seq<Document>, correspondents: map<int, Record>,
                                                 documentTypes: map<int, Record>, tagMap: map<int, Record>)
    ensures var r := ResolveEach(docs, correspondents, documentTypes, tagMap);
            r.Failure? ==> exists i :: 0 <= i < |docs| && ResolveDocument(docs[i], correspondents, documentTypes, tagMap) == Failure(r.error)
                                       && forall j :: 0 <= j < i ==> ResolveDocument(docs[j], correspondents, documentTypes, tagMap).Success?
  {
    if docs != [] {
      var rest := docs[1..];
      var tail := ResolveEach(rest, correspondents, documentTypes, tagMap);
      if ResolveDocument(docs[0], correspondents, documentTypes, tagMap).Success? && tail.Failure? {
        ResolveEachFailsFirst(rest, correspondents, documentTypes, tagMap);
        var i :| 0 <= i < |rest| && ResolveDocument(rest[i], correspondents, documentTypes, tagMap) == Failure(tail.error)
                 && forall j :: 0 <= j < i ==> ResolveDocument(rest[j], correspondents, documentTypes, tagMap).Success?;
        assert docs[i + 1] == rest[i];
        assert forall j :: 1 <= j < i + 1 ==> docs[j] == rest[j - 1];
      }
    }
  }

  /** The resolution loop `for doc in docs: ...` over all documents. */
  method ResolveAll(docs: seq<Document>, correspondents: map<int, Record>, documentTypes: map<int, Record>,
                    tagMap: map<int, Record>) returns (r: Result<seq<Hydrated>, LookupError>)
    ensures r == ResolveEach(docs, correspondents, documentTypes, tagMap)
  {
    var resolved: seq<Hydrated> := [];
    var i := 0;
    while i < |docs|
      invariant 0 <= i <= |docs| && |resolved| == i
      invariant forall j :: 0 <= j < i ==> ResolveDocument(docs[j], correspondents, documentTypes, tagMap) == Success(resolved[j])
    {
      var h := ResolveDocument(docs[i], correspondents, documentTypes, tagMap);
      if h.Failure? {
        ResolveEachSucceeds(docs, correspondents, documentTypes, tagMap);
        ResolveEachFailsFirst(docs, correspondents, documentTypes, tagMap);
        ghost var spec := ResolveEach(docs, correspondents, documentTypes, tagMap);
        assert spec.Failure?;
        ghost var k :| 0 <= k < |docs| && ResolveDocument(docs[k], correspondents, documentTypes, tagMap) == Failure(spec.error)
                       && forall j :: 0 <= j < k ==> ResolveDocument(docs[j], correspondents, documentTypes, tagMap).Success?;
        assert k == i;
        assert spec == Failure(h.error);
        return Failure(h.error);
      }
      resolved := resolved + [h.value];
      i := i + 1;
    }
    ResolveEachSucceeds(docs, correspondents, documentTypes, tagMap);
    ResolveEachValues(docs, correspondents, documentTypes, tagMap);
    ghost var spec := ResolveEach(docs, correspondents, documentTypes, tagMap);
    assert spec.Success? && |spec.value| == |resolved|;
    assert forall j :: 0 <= j < |docs| ==> spec.value[j] == resolved[j];
    assert spec.value == resolved;
    r := Success(resolved);
  }

  /** With the tag map built by `IndexById`, a resolved document's tag
      records carry exactly the document's tag ids, in order; so filtering
      `tags_obj` by id is filtering `doc.tags`. */
  lemma ResolvedTagIds(doc: Document, correspondents: map<int, Record>, documentTypes: map<int, Record>,
                       tags: seq<Record>, h: Hydrated)
    requires ResolveDocument(doc, correspondents, documentTypes, IndexById(tags)) == Success(h)
    ensures |h.tags| == |doc.tags|
    ensures forall i :: 0 <= i < |doc.tags| ==> h.tags[i].id == doc.tags[i] && h.tags[i] in tags
  {
  }
}
