/** Where a document goes: the destination path derived from a resolved
    document and the folder-tag set (the path derivation in
    `link_documents_to_dst`), and where its PDF comes from. */
module Layout {
  import opened Wrappers
  import opened Paths
  import opened Decimal
  import opened Documents
  import opened Text

  /** `strftime("%Y-%m")` */
  function YearMonth(d: Date): string
  {
    ZeroPad(d.year, 4) + "-" + ZeroPad(d.month, 2)
  }

  /** `strftime("%Y-%m-%d")` */
  function Day(d: Date): string
  {
    YearMonth(d) + "-" + ZeroPad(d.day, 2)
  }

  function CorrespondentName(h: Hydrated): string
  {
    if h.correspondent.Some? then h.correspondent.value.name else "Unknown"
  }

  function DocumentTypeName(h: Hydrated): string
  {
    if h.documentType.Some? then h.documentType.value.name else "Unknown"
  }

  predicate EndsWith(s: string, suffix: string)
  {
    |suffix| <= |s| && s[|s| - |suffix|..] == suffix
  }

  /** "<YYYY-MM-DD> <correspondent or Unknown> <title>.pdf" */
  function FileName(h: Hydrated): (s: string)
    ensures EndsWith(s, ".pdf")
    ensures |s| > |Day(h.doc.created)| && s[..|Day(h.doc.created)| + 1] == Day(h.doc.created) + " "
  {
    var head := Day(h.doc.created) + " ";
    var tail := CorrespondentName(h) + " " + h.doc.title + ".pdf";
    var s := head + tail;
    assert s[..|head|] == head;
    assert s[|s| - 4..] == tail[|tail| - 4..] == ".pdf";
    s
  }

  /** Names of the document's tags whose id is a folder tag, in the
      document's tag order. */
  function FolderTagNames(tags: seq<Record>, folderTags: set<int>): (names: seq<string>)
    ensures |names| <= |tags|
  {
    if tags == [] then []
    else
      var rest := FolderTagNames(tags[1..], folderTags);
      if tags[0].id in folderTags then [tags[0].name] + rest else rest
  }

  /** The folder-tag names are exactly the names of the tags whose id is a
      folder tag: none when no tag is one, and every one of them. */
  lemma {:induction false} FolderTagNamesSelects(tags: seq<Record>, folderTags: set<int>)
    ensures FolderTagNames(tags, folderTags) == [] <==> forall i :: 0 <= i < |tags| ==> tags[i].id !in folderTags
    ensures forall k :: 0 <= k < |FolderTagNames(tags, folderTags)| ==>
              exists i :: 0 <= i < |tags| && tags[i].id in folderTags && tags[i].name == FolderTagNames(tags, folderTags)[k]
    ensures forall i :: 0 <= i < |tags| && tags[i].id in folderTags ==> tags[i].name in FolderTagNames(tags, folderTags)
  {
    if tags != [] {
      var rest := FolderTagNames(tags[1..], folderTags);
      FolderTagNamesSelects(tags[1..], folderTags);
      assert forall i :: 1 <= i < |tags| ==> tags[i] == tags[1..][i - 1];
      var names := FolderTagNames(tags, folderTags);
      if tags[0].id in folderTags {
        assert names == [tags[0].name] + rest;
        forall k | 0 <= k < |names|
          ensures exists i :: 0 <= i < |tags| && tags[i].id in folderTags && tags[i].name == names[k]
        {
          if k == 0 {
            assert tags[0].name == names[0];
          } else {
            assert names[k] == rest[k - 1];
            var j :| 0 <= j < |tags[1..]| && tags[1..][j].id in folderTags && tags[1..][j].name == rest[k - 1];
            assert tags[j + 1] == tags[1..][j];
          }
        }
      } else {
        assert names == rest;
        forall k | 0 <= k < |names|
          ensures exists i :: 0 <= i < |tags| && tags[i].id in folderTags && tags[i].name == names[k]
        {
          var j :| 0 <= j < |tags[1..]| && tags[1..][j].id in folderTags && tags[1..][j].name == rest[k];
          assert tags[j + 1] == tags[1..][j];
        }
      }
    }
  }

  /** One tag contributes its name exactly when it is a folder tag. */
  lemma FolderTagNamesOne(t: Record, folderTags: set<int>)
    ensures FolderTagNames([t], folderTags) == if t.id in folderTags then [t.name] else []
  {
    assert [t][1..] == [];
  }

  /** The names keep the document's tag order: the names of a concatenation
      are the names of its first part followed by those of its second. */
  lemma {:induction false} FolderTagNamesAppend(a: seq<Record>, b: seq<Record>, folderTags: set<int>)
    ensures FolderTagNames(a + b, folderTags) == FolderTagNames(a, folderTags) + FolderTagNames(b, folderTags)
    decreases |a|
  {
    if a == [] {
      assert a + b == b;
    } else {
      assert (a + b)[1..] == a[1..] + b;
      assert (a + b)[0] == a[0];
      FolderTagNamesAppend(a[1..], b, folderTags);
    }
  }

  /** The folder-tag layer: the matching tag names joined by "-". */
  function TagLayer(h: Hydrated, folderTags: set<int>): string
  {
    JoinWith("-", FolderTagNames(h.tags, folderTags))
  }

  /** The layer is empty when the document has no folder tag, and present
      when it has one with a non-empty name. */
  lemma TagLayerPresence(h: Hydrated, folderTags: set<int>)
    ensures (forall i :: 0 <= i < |h.tags| ==> h.tags[i].id !in folderTags) ==> TagLayer(h, folderTags) == ""
    ensures (exists i :: 0 <= i < |h.tags| && h.tags[i].id in folderTags && h.tags[i].name != "") ==> TagLayer(h, folderTags) != ""
  {
    var names := FolderTagNames(h.tags, folderTags);
    FolderTagNamesSelects(h.tags, folderTags);
    if i :| 0 <= i < |h.tags| && h.tags[i].id in folderTags && h.tags[i].name != "" {
      assert h.tags[i].name in names;
      var k :| 0 <= k < |names| && names[k] == h.tags[i].name;
    }
  }

  /** Two folder tags make the layer "<first>-<second>", in the document's
      tag order. */
  lemma TagLayerOrder(h: Hydrated, folderTags: set<int>, x: Record, y: Record)
    requires h.tags == [x, y] && x.id in folderTags && y.id in folderTags
    ensures TagLayer(h, folderTags) == x.name + "-" + y.name
  {
    FolderTagNamesAppend([x], [y], folderTags);
    FolderTagNamesOne(x, folderTags);
    FolderTagNamesOne(y, folderTags);
    assert [x] + [y] == h.tags;
    var names := [x.name, y.name];
    assert FolderTagNames(h.tags, folderTags) == names;
    assert names[1..] == [y.name];
  }

  /** `root / s1 / s2 / ...` with pathlib's rule that an empty segment adds
      no component. */
  function Compose(root: Path, segments: seq<string>): (p: Path)
    ensures |root| <= |p| <= |root| + |segments| && p[..|root|] == root
    decreases |segments|
  {
    if segments == [] then root
    else
      var next := if segments[0] == "" then root else root + [segments[0]];
      var p := Compose(next, segments[1..]);
      assert p[..|root|] == p[..|next|][..|root|];
      p
  }

  /** Segments that are all non-empty are each one component. */
  lemma {:induction false} ComposeKeepsSegments(root: Path, segments: seq<string>)
    requires forall i :: 0 <= i < |segments| ==> segments[i] != ""
    ensures Compose(root, segments) == root + segments
    decreases |segments|
  {
    if segments != [] {
      ComposeKeepsSegments(root + [segments[0]], segments[1..]);
      assert segments == [segments[0]] + segments[1..];
    }
  }

  /** The destination of a document: `dst / tagLayer / typeName / YYYY-MM /
      fileName`. */
  function DestinationPath(h: Hydrated, folderTags: set<int>, root: Path): (p: Path)
    ensures |p| >= |root| + 2 && Below(p, root)
    ensures p[|p| - 1] == FileName(h) && p[|p| - 2] == YearMonth(h.doc.created)
    ensures EndsWith(p[|p| - 1], ".pdf")
  {
    var layer := TagLayer(h, folderTags);
    var kind := DocumentTypeName(h);
    var ym := YearMonth(h.doc.created);
    var fn := FileName(h);
    var front := Compose(root, [layer, kind]);
    var p := front + [ym, fn];
    assert |p| == |front| + 2 && p[|p| - 1] == fn && p[|p| - 2] == ym;
    assert p[..|root|] == front[..|root|];
    p
  }

  /** The components under the root: the tag layer and the type name, each
      when it is not empty, then the month and the file name. */
  lemma DestinationComponents(h: Hydrated, folderTags: set<int>, root: Path)
    ensures DestinationPath(h, folderTags, root) ==
              root + (if TagLayer(h, folderTags) == "" then [] else [TagLayer(h, folderTags)])
                   + (if DocumentTypeName(h) == "" then [] else [DocumentTypeName(h)])
                   + [YearMonth(h.doc.created), FileName(h)]
  {
    var layer := TagLayer(h, folderTags);
    var kind := DocumentTypeName(h);
    var ym := YearMonth(h.doc.created);
    var fn := FileName(h);
    assert DestinationPath(h, folderTags, root) == Compose(root, [layer, kind]) + [ym, fn];
    ComposeTwo(root, layer, kind);
  }

  lemma ComposeTwo(root: Path, a: string, b: string)
    ensures Compose(root, [a, b]) == root + (if a == "" then [] else [a]) + (if b == "" then [] else [b])
  {
    var next := if a == "" then root else root + [a];
    assert next == root + (if a == "" then [] else [a]);
    assert [a, b][1..] == [b];
    assert [b][1..] == [];
  }

  lemma {:induction false} ComposeAppend(root: Path, a: seq<string>, b: seq<string>)
    requires forall i :: 0 <= i < |b| ==> b[i] != ""
    ensures Compose(root, a + b) == Compose(root, a) + b
    decreases |a|
  {
    if a == [] {
      assert a + b == b;
      ComposeKeepsSegments(root, b);
    } else {
      var next := if a[0] == "" then root else root + [a[0]];
      assert (a + b)[1..] == a[1..] + b;
      ComposeAppend(next, a[1..], b);
    }
  }

  /** `f"{id:07}"`: seven digits with zeros in front, the sign counted in
      the width. */
  function SevenDigits(id: int): (s: string)
    ensures 0 <= id < Pow10(7) ==> |s| == 7 && AllDigits(s) && ParseDigits(s) == id
    ensures forall i :: 0 <= i < |s| ==> IsDigit(s[i]) || s[i] == '-'
  {
    if id < 0 then
      var s := "-" + ZeroPad(-id, 6);
      assert forall i :: 1 <= i < |s| ==> s[i] == ZeroPad(-id, 6)[i - 1];
      s
    else
      ParseZeroPad(id, 7);
      if id < Pow10(7) then NatToStringLength(id, 7); ZeroPad(id, 7) else ZeroPad(id, 7)
  }

  /** "<id:07>.pdf", the name the store gives a document's files. */
  function SourceName(id: int): string
  {
    SevenDigits(id) + ".pdf"
  }

  function ArchivePath(src: Path, id: int): Path
  {
    src + ["archive", SourceName(id)]
  }

  function OriginalsPath(src: Path, id: int): Path
  {
    src + ["originals", SourceName(id)]
  }

  /** A destination name always holds a space and a source name never
      does, so no destination path is ever a source path. */
  lemma DestinationIsNoSource(h: Hydrated, folderTags: set<int>, root: Path, src: Path, id: int)
    ensures DestinationPath(h, folderTags, root) != ArchivePath(src, id)
    ensures DestinationPath(h, folderTags, root) != OriginalsPath(src, id)
  {
    var p := DestinationPath(h, folderTags, root);
    FileNameHasSpace(h);
    SourceNameHasNoSpace(id);
    assert p[|p| - 1] != SourceName(id);
    assert ArchivePath(src, id)[|src| + 1] == SourceName(id);
    assert OriginalsPath(src, id)[|src| + 1] == SourceName(id);
  }

  lemma FileNameHasSpace(h: Hydrated)
    ensures ' ' in FileName(h)
  {
    var fn := FileName(h);
    var d := Day(h.doc.created);
    assert fn[..|d| + 1] == d + " ";
    assert fn[|d|] == (d + " ")[|d|] == ' ';
  }

  lemma SourceNameHasNoSpace(id: int)
    ensures ' ' !in SourceName(id)
  {
    var digits := SevenDigits(id);
    var sn := SourceName(id);
    forall i | 0 <= i < |sn| ensures sn[i] != ' ' {
      if i < |digits| {
        assert sn[i] == digits[i];
      } else {
        assert sn[i] == ".pdf"[i - |digits|];
      }
    }
  }

  lemma InvoiceDate()
    ensures YearMonth(Date(2024, 3, 2)) == "2024-03"
    ensures Day(Date(2024, 3, 2)) == "2024-03-02"
  {
    assert NatToString(2024) == "2024" by {
      assert NatToString(2) == "2";
      assert NatToString(20) == "20";
      assert NatToString(202) == "202";
    }
    assert ZeroPad(2024, 4) == "2024";
    assert NatToString(3) == "3" && Zeros(1) == "0";
    assert ZeroPad(3, 2) == "03";
    assert NatToString(2) == "2";
    assert ZeroPad(2, 2) == "02";
  }

  lemma InvoiceSourceName()
    ensures SourceName(1) == "0000001.pdf"
  {
    var one := NatToString(1);
    assert one == "1";
    var z := Zeros(6);
    assert z == "000000" by {
      assert Zeros(1) == "0" && Zeros(2) == "00" && Zeros(3) == "000";
      assert Zeros(4) == "0000" && Zeros(5) == "00000";
    }
    assert ZeroPad(1, 7) == z + one;
    assert SevenDigits(1) == ZeroPad(1, 7);
    assert z + one + ".pdf" == "0000001.pdf";
  }

  lemma InvoiceFileName()
    ensures FileName(InvoiceDocument()) == "2024-03-02 Acme Invoice.pdf"
  {
    InvoiceDate();
  }

  /** Document 1, titled "Invoice", from "Acme", of type "Invoice", created
      2024-03-02, without tags. */
  function InvoiceDocument(): Hydrated
  {
    Hydrated(Document(1, Some(7), Some(3), "Invoice", [], Date(2024, 3, 2)),
             Some(Record(7, "Acme")), Some(Record(3, "Invoice")), [])
  }

  /** That document lands at `dst/Invoice/2024-03/2024-03-02 Acme
      Invoice.pdf`, and its archived copy is `src/archive/0000001.pdf`. */
  lemma InvoiceExample(root: Path, src: Path, folderTags: set<int>)
    ensures DestinationPath(InvoiceDocument(), folderTags, root) == root + ["Invoice", "2024-03", "2024-03-02 Acme Invoice.pdf"]
    ensures ArchivePath(src, 1) == src + ["archive", "0000001.pdf"]
    ensures OriginalsPath(src, 1) == src + ["originals", "0000001.pdf"]
  {
    var h := InvoiceDocument();
    InvoiceDate();
    InvoiceFileName();
    InvoiceSourceName();
    assert FolderTagNames(h.tags, folderTags) == [];
    assert TagLayer(h, folderTags) == "";
    DestinationComponents(h, folderTags, root);
  }
}
