/** The command line: the API connection built from the options, the check
    that exactly one document selector is given, the query parameters of
    the four collection fetches, and the `--folder-tags` option. */
module Config {
  import opened Wrappers
  import opened Decimal
  import opened Text

  /** `DEFAULT_PAGE_SIZE` */
  const DefaultPageSize: int := 1000

  /** An optional string option counts as given only when it is non-empty,
      as Python's truthiness has it. */
  predicate Given(s: Option<string>)
  {
    s.Some? && s.value != ""
  }

  /** An optional tag id counts as given only when it is non-zero. */
  predicate TagGiven(id: Option<int>)
  {
    id.Some? && id.value != 0
  }

  datatype Connection = Connection(
    apiBaseUrl: string,
    clientCert: Option<string>,
    clientKey: Option<string>,
    token: Option<string>)

  /** `Connection.cert`: the client certificate and key, only when both are
      given. */
  function Cert(c: Connection): (r: Option<(string, string)>)
    ensures r.Some? <==> Given(c.clientCert) && Given(c.clientKey)
    ensures r.Some? ==> r.value.0 == c.clientCert.value && r.value.1 == c.clientKey.value
  {
    if Given(c.clientCert) && Given(c.clientKey) then Some((c.clientCert.value, c.clientKey.value)) else None
  }

  /** `Connection.headers`: an `Authorization` header with the token when one
      is given, and no other header. */
  function Headers(c: Connection): (h: map<string, string>)
    ensures h.Keys <= {"Authorization"}
    ensures "Authorization" in h <==> Given(c.token)
    ensures Given(c.token) ==> h["Authorization"] == "Token " + c.token.value
  {
    if Given(c.token) then map["Authorization" := "Token " + c.token.value] else map[]
  }

  datatype UsageError = MissingSelector | ConflictingSelectors

  /** The two `click.UsageError` checks on `--filter-tag-id` and `--all`, in
      the order the command makes them. */
  function CheckSelector(filterTagId: Option<int>, all: bool): (r: Option<UsageError>)
    ensures r == Some(MissingSelector) <==> !TagGiven(filterTagId) && !all
    ensures r == Some(ConflictingSelectors) <==> TagGiven(filterTagId) && all
    ensures r.None? <==> TagGiven(filterTagId) != all
  {
    if !TagGiven(filterTagId) && !all then Some(MissingSelector)
    else if TagGiven(filterTagId) && all then Some(ConflictingSelectors)
    else None
  }

  /** A query parameter value: text or a number. */
  datatype Param = Literal(text: string) | Number(number: int)

  /** The parameters of the correspondent, document-type and tag fetches. */
  function CollectionParams(): (m: map<string, Param>)
    ensures m.Keys == {"page_size"} && m["page_size"] == Number(DefaultPageSize)
  {
    map["page_size" := Number(DefaultPageSize)]
  }

  /** The parameters of the document fetch: contents truncated, the default
      page size, and the tag filter when one is given. */
  function DocumentParams(filterTagId: Option<int>): (m: map<string, Param>)
    ensures m.Keys <= {"truncate_content", "page_size", "tags__id__all"}
    ensures "truncate_content" in m && m["truncate_content"] == Literal("true")
    ensures "page_size" in m && m["page_size"] == Number(DefaultPageSize)
    ensures "tags__id__all" in m <==> TagGiven(filterTagId)
    ensures TagGiven(filterTagId) ==> m["tags__id__all"] == Number(filterTagId.value)
  {
    var m := map["truncate_content" := Literal("true"), "page_size" := Number(DefaultPageSize)];
    if TagGiven(filterTagId) then m["tags__id__all" := Number(filterTagId.value)] else m
  }

  /** Once the selector check passes, the document fetch is filtered by tag
      exactly when `--all` was not given. */
  lemma SelectorDecidesFilter(filterTagId: Option<int>, all: bool)
    requires CheckSelector(filterTagId, all).None?
    ensures "tags__id__all" in DocumentParams(filterTagId) <==> !all
  {
  }

  /** `{int(tag_id) for tag_id in parts}`: every part parsed, or the first
      part `int()` rejects. */
  function ParseIds(parts: seq<string>): Result<set<int>, string>
  {
    if parts == [] then Success({})
    else
      match ParseInt(parts[0])
      case None => Failure(parts[0])
      case Some(n) =>
        match ParseIds(parts[1..])
        case Failure(e) => Failure(e)
        case Success(s) => Success({n} + s)
  }

  /** Parsing succeeds exactly when every part is an integer. */
  lemma {:induction false} ParseIdsSucceeds(parts: seq<string>)
    ensures ParseIds(parts).Success? <==> forall i :: 0 <= i < |parts| ==> ParseInt(parts[i]).Some?
  {
    if parts != [] {
      var rest := parts[1..];
      ParseIdsSucceeds(rest);
      assert forall i :: 1 <= i < |parts| ==> parts[i] == rest[i - 1];
    }
  }

  /** When every part is an integer, the result is the set of their values. */
  lemma {:induction false} ParseIdsValue(parts: seq<string>)
    requires forall i :: 0 <= i < |parts| ==> ParseInt(parts[i]).Some?
    ensures ParseIds(parts).Success?
    ensures forall x :: x in ParseIds(parts).value <==> exists i :: 0 <= i < |parts| && ParseInt(parts[i]) == Some(x)
  {
    if parts != [] {
      var rest := parts[1..];
      forall i | 0 <= i < |rest| ensures ParseInt(rest[i]).Some? {
        assert rest[i] == parts[i + 1];
      }
      ParseIdsValue(rest);
      var n := ParseInt(parts[0]).value;
      var later := ParseIds(rest).value;
      assert ParseIds(parts) == Success({n} + later);
      forall x ensures x in {n} + later <==> exists i :: 0 <= i < |parts| && ParseInt(parts[i]) == Some(x) {
        if x in later {
          var i :| 0 <= i < |rest| && ParseInt(rest[i]) == Some(x);
          assert parts[i + 1] == rest[i];
        }
        if i :| 0 <= i < |parts| && ParseInt(parts[i]) == Some(x) {
          if i > 0 {
            assert parts[i] == rest[i - 1];
          }
        }
      }
    }
  }

  /** A failed parse reports the first part that is not an integer. */
  lemma {:induction false} ParseIdsFirstFailure(parts: seq<string>)
    requires ParseIds(parts).Failure?
    ensures exists i :: 0 <= i < |parts| && ParseInt(parts[i]).None? && ParseIds(parts).error == parts[i]
                        && forall j :: 0 <= j < i ==> ParseInt(parts[j]).Some?
  {
    var rest := parts[1..];
    if ParseInt(parts[0]).Some? {
      ParseIdsFirstFailure(rest);
      var i :| 0 <= i < |rest| && ParseInt(rest[i]).None? && ParseIds(rest).error == rest[i]
               && forall j :: 0 <= j < i ==> ParseInt(rest[j]).Some?;
      assert parts[i + 1] == rest[i];
      assert forall j :: 1 <= j < i + 1 ==> parts[j] == rest[j - 1];
    } else {
      assert ParseIds(parts).error == parts[0];
    }
  }

  /** The `--folder-tags` option: no option or an empty one is the empty
      set; otherwise every comma-separated part must be an integer. A part
      that is not is reported (`ValueError`). */
  function ParseFolderTags(option: Option<string>): (r: Result<set<int>, string>)
    ensures !Given(option) ==> r == Success({})
    ensures Given(option) ==> r == ParseIds(Split(option.value, ','))
  {
    if Given(option) then ParseIds(Split(option.value, ',')) else Success({})
  }

  /** Writing a list of tag ids as `--folder-tags` and parsing it back
      gives exactly the set of those ids; an empty list writes "", which
      counts as no option. */
  lemma {:induction false} FolderTagsRoundTrip(ids: seq<int>)
    ensures var parts := seq(|ids|, i requires 0 <= i < |ids| => IntToString(ids[i]));
            ParseFolderTags(Some(JoinWith(",", parts))) == Success(set x | x in ids)
  {
    if ids == [] {
      assert seq(|ids|, i requires 0 <= i < |ids| => IntToString(ids[i])) == [];
      assert JoinWith(",", []) == "";
      assert (set x | x in ids) == {};
    } else {
      var parts := seq(|ids|, i requires 0 <= i < |ids| => IntToString(ids[i]));
      forall i | 0 <= i < |parts| ensures ',' !in parts[i] && ParseInt(parts[i]) == Some(ids[i]) {
        ParseIntToString(ids[i]);
      }
      assert parts[0] != "";
      SplitJoin(parts, ',');
      ParseIdsValue(parts);
      var want := set x | x in ids;
      forall x ensures x in ParseIds(parts).value <==> x in want {
        if x in want {
          var i :| 0 <= i < |ids| && ids[i] == x;
          assert ParseInt(parts[i]) == Some(x);
        }
      }
      assert ParseIds(parts).value == want;
    }
  }
}
