/**
 * The document endpoints: each handler looks the document up (404), checks
 * the caller's permission (403) and only then reads or changes the store.
 */
module DocumentRoutes {
  import opened Options
  import opened Text
  import opened IdList
  import opened LineDiff
  import opened Users
  import opened Access
  import opened Revisions
  import opened Documents
  import opened DocumentQuery

  /** A listed document with the `revision_count` the listing adds. */
  datatype ListEntry = ListEntry(document: DocumentDict, revisionCount: nat)

  datatype Body =
    | Message(success: bool, message: string)
    | DocumentBody(document: DocumentDict)
    | ListBody(count: nat, documents: seq<ListEntry>)

  datatype Response = Response(status: int, body: Body)

  function Fail(status: int, message: string): Response {
    Response(status, Message(false, message))
  }

  const DefaultTitle: string := "New Document"

  /** `'# New Document\\n\\nStart writing here...'`, with the two-character separator. */
  const DefaultContent: string := "# New Document" + LineSeparator + LineSeparator + "Start writing here..."

  /** Two separators between backslash-free texts make three lines, the middle one empty. */
  lemma TwoSeparatorsMakeThreeLines(a: string, b: string)
    requires '\\' !in a && '\\' !in b
    ensures Lines(Some(a + LineSeparator + LineSeparator + b)) == [a, "", b]
  {
    var e: string := [];
    assert a + LineSeparator + LineSeparator + b == a + LineSeparator + (e + LineSeparator + b);
    SplitFromAt(a, LineSeparator, e + LineSeparator + b, []);
    SplitFromAt(e, LineSeparator, b, []);
    SplitFromNoSeparator(b, LineSeparator, []);
    assert [] + a == a && e + e == e && e + b == b;
  }

  /** The starter content is three lines for the estimator: a heading, an empty line and a prompt. */
  lemma DefaultContentLines()
    ensures Lines(Some(DefaultContent)) == ["# New Document", "", "Start writing here..."]
  {
    TwoSeparatorsMakeThreeLines("# New Document", "Start writing here...");
  }

  /** Position of the document with id `docId`: `Document.query.get(doc_id)`. */
  function IndexOfId(docs: seq<Document>, docId: int): (r: Option<nat>)
    ensures r.Some? ==> r.value < |docs| && docs[r.value].id == docId
    ensures r.None? ==> forall i :: 0 <= i < |docs| ==> docs[i].id != docId
  {
    if docs == [] then None
    else if docs[0].id == docId then Some(0)
    else match IndexOfId(docs[1..], docId)
      case None => None
      case Some(k) => Some(k + 1)
  }

  /** The first revision with id `revisionId` in `revs`. */
  function RevisionIn(revs: seq<Revision>, revisionId: int): (r: Option<Revision>)
    ensures r.Some? ==> r.value in revs && r.value.id == revisionId
    ensures r.None? ==> forall i :: 0 <= i < |revs| ==> revs[i].id != revisionId
  {
    if revs == [] then None
    else if revs[0].id == revisionId then Some(revs[0])
    else RevisionIn(revs[1..], revisionId)
  }

  /** `Revision.query.get(revision_id)`: a search through the revisions of every stored document. */
  function FindRevision(docs: seq<Document>, revisionId: int): (r: Option<Revision>)
    reads docs
    ensures r.Some? ==> r.value.id == revisionId && exists i :: 0 <= i < |docs| && r.value in docs[i].revisions
    ensures r.None? ==> forall i, j :: 0 <= i < |docs| && 0 <= j < |docs[i].revisions| ==> docs[i].revisions[j].id != revisionId
  {
    if docs == [] then None
    else match RevisionIn(docs[0].revisions, revisionId)
      case Some(rev) => Some(rev)
      case None =>
        var r := FindRevision(docs[1..], revisionId);
        assert r.Some? ==> exists i :: 0 <= i < |docs[1..]| && r.value in docs[1..][i].revisions;
        assert forall i :: 1 <= i < |docs| ==> docs[i] == docs[1..][i - 1];
        r
  }

  /** Where a revision id was issued: the document and the position in its revisions. */
  datatype Slot = Slot(documentId: int, index: nat)

  /** The revision at position `index` of the document `documentId` holds an id below `bound` that `owner` files there. */
  predicate Issued(r: Revision, documentId: int, index: nat, bound: int, owner: map<int, Slot>) {
    r.id < bound && r.documentId == documentId && r.id in owner && owner[r.id] == Slot(documentId, index)
  }

  /** Revisions of the document `documentId`, each issued at its own position, defined one revision at a time. */
  predicate Filed(revs: seq<Revision>, documentId: int, bound: int, owner: map<int, Slot>)
    decreases |revs|
  {
    revs == [] ||
    (Filed(revs[..|revs| - 1], documentId, bound, owner)
     && Issued(revs[|revs| - 1], documentId, |revs| - 1, bound, owner))
  }

  /** Every filed revision was issued at its position. */
  lemma {:induction false} FiledAt(revs: seq<Revision>, documentId: int, bound: int, owner: map<int, Slot>, j: nat)
    requires Filed(revs, documentId, bound, owner) && j < |revs|
    ensures Issued(revs[j], documentId, j, bound, owner)
  {
    if j < |revs| - 1 {
      FiledAt(revs[..|revs| - 1], documentId, bound, owner, j);
    }
  }

  /** Filing the next id somewhere leaves the revisions already filed in place. */
  lemma {:induction false} FiledExtend(revs: seq<Revision>, documentId: int, bound: int, owner: map<int, Slot>, other: Slot)
    requires Filed(revs, documentId, bound, owner)
    ensures Filed(revs, documentId, bound + 1, owner[bound := other])
    decreases |revs|
  {
    if revs != [] {
      FiledExtend(revs[..|revs| - 1], documentId, bound, owner, other);
    }
  }

  /** Appending a revision of the document with the next id keeps the revisions filed under the new bound. */
  lemma FiledAppend(revs: seq<Revision>, documentId: int, bound: int, owner: map<int, Slot>, r: Revision)
    requires Filed(revs, documentId, bound, owner) && r.id == bound && r.documentId == documentId
    ensures Filed(revs + [r], documentId, bound + 1, owner[bound := Slot(documentId, |revs|)])
  {
    FiledExtend(revs, documentId, bound, owner, Slot(documentId, |revs|));
    assert (revs + [r])[..|revs|] == revs;
  }

  /** No two stored revisions share an id: `id` is the primary key of the revisions table. */
  ghost predicate RevisionIdsDistinct(docs: seq<Document>)
    reads docs
  {
    forall i, j, a, b ::
      0 <= i < |docs| && 0 <= j < |docs| && 0 <= a < |docs[i].revisions| && 0 <= b < |docs[j].revisions|
      && (i != j || a != b)
      ==> docs[i].revisions[a].id != docs[j].revisions[b].id
  }

  class DocumentStore {
    var docs: seq<Document>
    var nextDocumentId: int
    var nextRevisionId: int
    /** The document, and the position in it, that each revision id was issued to. */
    ghost var revisionOwner: map<int, Slot>

    /**
     * Every stored sharing text was written by `set_*_list` (or is the
     * empty default), document ids are distinct and below the next id, and
     * every revision belongs to the document holding it and has an id below
     * the next revision id that the owner map files at its own document and
     * position, so no two stored revisions share an id.
     */
    ghost predicate Valid()
      reads this, docs
    {
      && (forall i :: 0 <= i < |docs| ==> WellFormed(docs[i].SharingOf()))
      && (forall i, j :: 0 <= i < j < |docs| ==> docs[i].id != docs[j].id)
      && (forall i :: 0 <= i < |docs| ==> docs[i].id < nextDocumentId)
      && (forall i :: 0 <= i < |docs| ==> Filed(docs[i].revisions, docs[i].id, nextRevisionId, revisionOwner))
    }

    constructor ()
      ensures Valid() && docs == [] && nextDocumentId == 1 && nextRevisionId == 1
    {
      docs := [];
      nextDocumentId := 1;
      nextRevisionId := 1;
      revisionOwner := map[];
    }

    /** The rows the listing query sees. */
    function Rows(): (rows: seq<Row>)
      reads this, docs
      ensures |rows| == |docs| && forall i :: 0 <= i < |docs| ==> rows[i] == RowOf(docs[i])
    {
      seq(|docs|, i reads this, docs requires 0 <= i < |docs| => RowOf(docs[i]))
    }

    /**
     * `GET /documents`: the accessible documents, newest first, each
     * serialised without its revisions and with its revision count.
     */
    method GetDocuments(user: User) returns (resp: Response)
      requires Valid()
      ensures resp.status == 200 && resp.body.ListBody?
      ensures var rows := FindAllAccessible(Rows(), user.id, user.role);
        && resp.body.count == |resp.body.documents| == |rows|
        && forall i :: 0 <= i < |rows| ==>
             && rows[i].doc in docs
             && rows[i].doc.EditorsList().Some? && rows[i].doc.ViewersList().Some?
             && resp.body.documents[i].document == rows[i].doc.ToDict(false)
             && resp.body.documents[i].revisionCount == |rows[i].doc.revisions|
    {
      var all := Rows();
      RowsDecode();
      var rows := FindAllAccessible(all, user.id, user.role);
      assert forall j :: 0 <= j < |rows| ==> rows[j] in all;
      var list: seq<ListEntry> := [];
      for i := 0 to |rows|
        invariant |list| == i
        invariant forall j :: 0 <= j < i ==>
          list[j].document == rows[j].doc.ToDict(false) && list[j].revisionCount == |rows[j].doc.revisions|
      {
        var doc := rows[i].doc;
        list := list + [ListEntry(doc.ToDict(false), |doc.revisions|)];
      }
      resp := Response(200, ListBody(|list|, list));
    }

    /** Every stored row's document is stored and its sharing texts decode. */
    lemma RowsDecode()
      requires Valid()
      ensures forall x :: x in Rows() ==> x.doc in docs && x.doc.EditorsList().Some? && x.doc.ViewersList().Some?
    {
      forall x | x in Rows() ensures x.doc in docs && x.doc.EditorsList().Some? && x.doc.ViewersList().Some? {
        var k :| 0 <= k < |docs| && Rows()[k] == x;
        WellFormedDecides(docs[k].SharingOf(), 0, Viewer);
      }
    }

    /** `GET /documents/<id>`: 404 before 403 before the document. */
    function GetDocument(user: User, docId: int): (resp: Response)
      reads this, docs
      requires Valid()
      ensures IndexOfId(docs, docId).None? <==> resp == Fail(404, "Document not found")
      ensures IndexOfId(docs, docId).Some? ==>
        var d := docs[IndexOfId(docs, docId).value];
        && ViewDecidable(d.SharingOf(), user.id, user.role)
        && (!CanView(d.SharingOf(), user.id, user.role) <==> resp == Fail(403, "Not authorized to view"))
        && (CanView(d.SharingOf(), user.id, user.role) ==>
              && d.EditorsList().Some? && d.ViewersList().Some?
              && resp == Response(200, DocumentBody(d.ToDict(true))))
    {
      match IndexOfId(docs, docId)
      case None => Fail(404, "Document not found")
      case Some(k) =>
        var d := docs[k];
        WellFormedDecides(d.SharingOf(), user.id, user.role);
        if !CanView(d.SharingOf(), user.id, user.role) then Fail(403, "Not authorized to view")
        else Response(200, DocumentBody(d.ToDict(true)))
    }

    /**
     * `POST /documents`: only admins and editors may create; absent fields
     * default to "New Document", the starter content and public.
     */
    method CreateDocument(user: User, title: Option<string>, content: Option<string>, isPublic: Option<bool>, now: nat)
      returns (resp: Response)
      requires Valid()
      modifies this
      ensures Valid()
      ensures user.role == Viewer ==>
        && resp == Fail(403, "Role '" + RoleName(user.role) + "' is not authorized")
        && docs == old(docs) && nextDocumentId == old(nextDocumentId) && nextRevisionId == old(nextRevisionId)
      ensures user.role != Viewer ==>
        && |docs| == |old(docs)| + 1 && docs[..|old(docs)|] == old(docs)
        && var d := docs[|old(docs)|];
        && fresh(d) && d.id == old(nextDocumentId) && d.EditorsList().Some? && d.ViewersList().Some?
        && d.title == title.GetOr(DefaultTitle) && d.content == content.GetOr(DefaultContent)
        && d.isPublic == isPublic.GetOr(true)
        && d.ownerId == user.id && d.ownerName == user.name && d.ownerEmail == user.email
        && d.lastEditedBy == user.name && d.createdAt == now && d.updatedAt == now
        && d.EditorsList() == Some([user.id]) && d.ViewersList() == Some([])
        && d.revisions == [CreationRevision(old(nextRevisionId), old(nextDocumentId), title.GetOr(DefaultTitle),
                                            content.GetOr(DefaultContent), user.id, user.name, user.email, now)]
        && resp == Response(201, DocumentBody(d.ToDict(true)))
    {
      if user.role == Viewer {
        return Fail(403, "Role '" + RoleName(user.role) + "' is not authorized");
      }
      var d := new Document.Create(nextDocumentId, title.GetOr(DefaultTitle), content.GetOr(DefaultContent),
                                   user.id, user.name, user.email, isPublic.GetOr(true), nextRevisionId, now);
      Append(d);
      resp := Response(201, DocumentBody(d.ToDict(true)));
    }

    /**
     * The end of `POST /documents`: the new document takes the next document
     * id and its one revision the next revision id.
     */
    method Append(d: Document)
      requires Valid() && d.id == nextDocumentId && WellFormed(d.SharingOf())
      requires |d.revisions| == 1 && d.revisions[0].id == nextRevisionId && d.revisions[0].documentId == d.id
      modifies this
      ensures Valid() && docs == old(docs) + [d]
      ensures nextDocumentId == old(nextDocumentId) + 1 && nextRevisionId == old(nextRevisionId) + 1
    {
      ghost var before := docs;
      docs := docs + [d];
      nextDocumentId := nextDocumentId + 1;
      revisionOwner := revisionOwner[nextRevisionId := Slot(d.id, 0)];
      nextRevisionId := nextRevisionId + 1;
      assert Valid() by {
        forall i | 0 <= i < |docs|
          ensures WellFormed(docs[i].SharingOf()) && docs[i].id < nextDocumentId
          ensures Filed(docs[i].revisions, docs[i].id, nextRevisionId, revisionOwner)
        {
          if i < |before| {
            assert docs[i] == before[i];
            FiledExtend(docs[i].revisions, docs[i].id, nextRevisionId - 1, old(revisionOwner), Slot(d.id, 0));
          } else {
            assert d.revisions[..0] == [];
          }
        }
        forall i, j | 0 <= i < j < |docs| ensures docs[i].id != docs[j].id {
          assert docs[i] == before[i];
          if j < |before| { assert docs[j] == before[j]; }
        }
      }
    }

    /**
     * `PUT /documents/<id>`: 404, then 403 without edit permission, both
     * changing nothing; otherwise the update with absent fields falling back
     * to the current title and content.
     */
    method UpdateDocument(user: User, docId: int, title: Option<string>, content: Option<string>, now: nat)
      returns (resp: Response)
      requires Valid()
      modifies this, docs
      ensures Valid() && docs == old(docs)
      ensures IndexOfId(docs, docId).None? ==>
        resp == Fail(404, "Document not found") && unchanged(this) && unchanged(docs)
      ensures IndexOfId(docs, docId).Some? ==>
        var k := IndexOfId(docs, docId).value;
        var d := docs[k];
        && EditDecidable(d.SharingOf(), user.id, user.role)
        && (!CanEdit(d.SharingOf(), user.id, user.role) ==>
              resp == Fail(403, "Not authorized to edit") && unchanged(this) && unchanged(docs))
        && (CanEdit(d.SharingOf(), user.id, user.role) ==>
              && d.EditorsList().Some? && d.ViewersList().Some?
              && resp == Response(200, DocumentBody(d.ToDict(true)))
              && d.title == title.GetOr(old(d.title)) && d.content == content.GetOr(old(d.content))
              && d.lastEditedBy == user.name && d.updatedAt == now
              && d.editors == old(d.editors) && d.viewers == old(d.viewers)
              && d.revisions == old(d.revisions) + [EditRevision(old(nextRevisionId), d.id, old(d.title), old(d.content),
                                                                 d.title, d.content, user.id, user.name, user.email, now)]
              && (title.None? && content.None? ==> d.revisions[|d.revisions| - 1].changes == MinorEdits)
              && nextRevisionId == old(nextRevisionId) + 1 && nextDocumentId == old(nextDocumentId)
              && forall j :: 0 <= j < |docs| && j != k ==> unchanged(docs[j]))
    {
      var found := IndexOfId(docs, docId);
      if found.None? {
        return Fail(404, "Document not found");
      }
      var d := docs[found.value];
      WellFormedDecides(d.SharingOf(), user.id, user.role);
      if !CanEdit(d.SharingOf(), user.id, user.role) {
        return Fail(403, "Not authorized to edit");
      }
      resp := UpdateAt(found.value, user, title, content, now);
    }

    /**
     * The end of `PUT /documents/<id>`, once the document at `k` is found and
     * the edit right checked.
     */
    method UpdateAt(k: nat, user: User, title: Option<string>, content: Option<string>, now: nat)
      returns (resp: Response)
      requires Valid() && k < |docs|
      modifies docs[k], this`nextRevisionId, this`revisionOwner
      ensures Valid() && docs[k].editors == old(docs[k].editors) && docs[k].viewers == old(docs[k].viewers)
      ensures forall j :: 0 <= j < |docs| && j != k ==> unchanged(docs[j])
      ensures var d := docs[k];
        && d.EditorsList().Some? && d.ViewersList().Some?
        && resp == Response(200, DocumentBody(d.ToDict(true)))
        && d.title == title.GetOr(old(d.title)) && d.content == content.GetOr(old(d.content))
        && d.lastEditedBy == user.name && d.updatedAt == now
        && d.revisions == old(d.revisions) + [EditRevision(old(nextRevisionId), d.id, old(d.title), old(d.content),
                                                           d.title, d.content, user.id, user.name, user.email, now)]
        && (title.None? && content.None? ==> d.revisions[|d.revisions| - 1].changes == MinorEdits)
        && nextRevisionId == old(nextRevisionId) + 1
    {
      var d := docs[k];
      var newTitle := title.GetOr(d.title);
      var newContent := content.GetOr(d.content);
      UnchangedEditIsMinor(nextRevisionId, d.id, d.title, d.content, user.id, user.name, user.email, now);
      ghost var n := |d.revisions|;
      d.Update(newTitle, newContent, user.id, user.name, user.email, nextRevisionId, now);
      revisionOwner := revisionOwner[nextRevisionId := Slot(d.id, n)];
      nextRevisionId := nextRevisionId + 1;
      KeepsValid(k);
      WellFormedDecides(d.SharingOf(), user.id, user.role);
      resp := Response(200, DocumentBody(d.ToDict(true)));
    }

    /**
     * Appending to the document at `k` one revision of that document, with
     * the id the counter held, and advancing the counter keeps the store
     * valid when the sharing texts stay.
     */
    twostate lemma KeepsValid(k: nat)
      requires old(Valid()) && k < |docs| && docs == old(docs)
      requires nextDocumentId == old(nextDocumentId) && nextRevisionId == old(nextRevisionId) + 1
      requires revisionOwner == old(revisionOwner)[old(nextRevisionId) := Slot(docs[k].id, |old(docs[k].revisions)|)]
      requires docs[k].id == old(docs[k].id)
      requires docs[k].editors == old(docs[k].editors) && docs[k].viewers == old(docs[k].viewers)
      requires |docs[k].revisions| == |old(docs[k].revisions)| + 1
      requires docs[k].revisions[..|old(docs[k].revisions)|] == old(docs[k].revisions)
      requires docs[k].revisions[|old(docs[k].revisions)|].id == old(nextRevisionId)
      requires docs[k].revisions[|old(docs[k].revisions)|].documentId == docs[k].id
      requires forall i :: 0 <= i < |docs| && i != k ==> unchanged(docs[i])
      ensures Valid()
    {
      KeepsFiled(k);
      forall i | 0 <= i < |docs|
        ensures WellFormed(docs[i].SharingOf()) && docs[i].id < nextDocumentId
      {
        if i == k {
          assert docs[k].SharingOf().editors == old(docs[k].SharingOf()).editors;
          assert docs[k].SharingOf().viewers == old(docs[k].SharingOf()).viewers;
        } else {
          assert docs[i].SharingOf() == old(docs[i].SharingOf());
        }
      }
    }

    /** The revision part of `KeepsValid`: every document's revisions stay filed. */
    twostate lemma KeepsFiled(k: nat)
      requires old(Valid()) && k < |docs| && docs == old(docs) && nextRevisionId == old(nextRevisionId) + 1
      requires revisionOwner == old(revisionOwner)[old(nextRevisionId) := Slot(docs[k].id, |old(docs[k].revisions)|)]
      requires docs[k].id == old(docs[k].id)
      requires |docs[k].revisions| == |old(docs[k].revisions)| + 1
      requires docs[k].revisions[..|old(docs[k].revisions)|] == old(docs[k].revisions)
      requires docs[k].revisions[|old(docs[k].revisions)|].id == old(nextRevisionId)
      requires docs[k].revisions[|old(docs[k].revisions)|].documentId == docs[k].id
      requires forall i :: 0 <= i < |docs| && i != k ==> unchanged(docs[i])
      ensures forall i :: 0 <= i < |docs| ==> Filed(docs[i].revisions, docs[i].id, nextRevisionId, revisionOwner)
    {
      var r := docs[k].revisions[|old(docs[k].revisions)|];
      assert docs[k].revisions == old(docs[k].revisions) + [r];
      assert old(Filed(docs[k].revisions, docs[k].id, nextRevisionId, revisionOwner));
      FiledAppend(old(docs[k].revisions), docs[k].id, old(nextRevisionId), old(revisionOwner), r);
      forall i | 0 <= i < |docs| && i != k
        ensures Filed(docs[i].revisions, docs[i].id, nextRevisionId, revisionOwner)
      {
        var revs, id := old(docs[i].revisions), old(docs[i].id);
        assert docs[i].revisions == revs && docs[i].id == id;
        assert old(Filed(docs[i].revisions, docs[i].id, nextRevisionId, revisionOwner));
        FiledExtend(revs, id, old(nextRevisionId), old(revisionOwner), Slot(docs[k].id, |old(docs[k].revisions)|));
      }
    }

    /**
     * Revision ids are unique across the store: the owner map files each
     * id under one document and one position in it.
     */
    lemma StoredRevisionIdsDistinct()
      requires Valid()
      ensures RevisionIdsDistinct(docs)
    {
      forall i, j, a, b | 0 <= i < |docs| && 0 <= j < |docs| && 0 <= a < |docs[i].revisions|
                          && 0 <= b < |docs[j].revisions| && (i != j || a != b)
        ensures docs[i].revisions[a].id != docs[j].revisions[b].id
      {
        FiledAt(docs[i].revisions, docs[i].id, nextRevisionId, revisionOwner, a);
        FiledAt(docs[j].revisions, docs[j].id, nextRevisionId, revisionOwner, b);
        if i == j {
        } else if i < j {
          assert docs[i].id != docs[j].id;
        } else {
          assert docs[j].id != docs[i].id;
        }
      }
    }

    /**
     * `Revision.query.get` finds a row by primary key: the revision the
     * search returns is the only stored revision with that id.
     */
    lemma RevisionLookupIsUnique(revisionId: int)
      requires Valid()
      ensures FindRevision(docs, revisionId).Some? ==>
        forall i, a :: 0 <= i < |docs| && 0 <= a < |docs[i].revisions| && docs[i].revisions[a].id == revisionId
          ==> docs[i].revisions[a] == FindRevision(docs, revisionId).value
    {
      StoredRevisionIdsDistinct();
      var found := FindRevision(docs, revisionId);
      if found.Some? {
        var i0 :| 0 <= i0 < |docs| && found.value in docs[i0].revisions;
        var a0 :| 0 <= a0 < |docs[i0].revisions| && docs[i0].revisions[a0] == found.value;
      }
    }

    /**
     * `DELETE /documents/<id>`: 404, then 403 without delete permission;
     * otherwise the document leaves the store with all its revisions.
     */
    method DeleteDocument(user: User, docId: int) returns (resp: Response)
      requires Valid()
      modifies this
      ensures Valid()
      ensures nextDocumentId == old(nextDocumentId) && nextRevisionId == old(nextRevisionId)
      ensures IndexOfId(old(docs), docId).None? ==> resp == Fail(404, "Document not found") && docs == old(docs)
      ensures IndexOfId(old(docs), docId).Some? ==>
        var k := IndexOfId(old(docs), docId).value;
        && (!CanDelete(old(docs)[k].SharingOf(), user.id, user.role) ==>
              resp == Fail(403, "Not authorized to delete") && docs == old(docs))
        && (CanDelete(old(docs)[k].SharingOf(), user.id, user.role) ==>
              resp == Response(200, Message(true, "Document deleted"))
              && docs == old(docs)[..k] + old(docs)[k + 1..])
    {
      var found := IndexOfId(docs, docId);
      if found.None? {
        return Fail(404, "Document not found");
      }
      var k := found.value;
      if !CanDelete(docs[k].SharingOf(), user.id, user.role) {
        return Fail(403, "Not authorized to delete");
      }
      RemoveAt(k);
      resp := Response(200, Message(true, "Document deleted"));
    }

    /** The end of `DELETE /documents/<id>`: the document at `k` leaves the store. */
    method RemoveAt(k: nat)
      requires Valid() && k < |docs|
      modifies this`docs
      ensures Valid() && docs == old(docs)[..k] + old(docs)[k + 1..]
    {
      ghost var before := docs;
      docs := docs[..k] + docs[k + 1..];
      forall i | 0 <= i < |docs| ensures docs[i] == before[if i < k then i else i + 1] { }
      assert forall i :: 0 <= i < |docs| ==> Filed(docs[i].revisions, docs[i].id, nextRevisionId, revisionOwner);
      assert forall i :: 0 <= i < |docs| ==> WellFormed(docs[i].SharingOf()) && docs[i].id < nextDocumentId;
    }

    /**
     * `POST /documents/<id>/restore/<revision_id>`: 404, then 403 without
     * edit permission, then 404 when the revision is missing or belongs to
     * another document; otherwise the restore.
     */
    method RestoreRevision(user: User, docId: int, revisionId: int, day: nat -> string, now: nat)
      returns (resp: Response)
      requires Valid()
      modifies this, docs
      ensures Valid() && docs == old(docs) && nextDocumentId == old(nextDocumentId)
      ensures IndexOfId(docs, docId).None? ==>
        resp == Fail(404, "Document not found") && unchanged(this) && unchanged(docs)
      ensures IndexOfId(docs, docId).Some? ==>
        var k := IndexOfId(docs, docId).value;
        var d := docs[k];
        var target := old(FindRevision(docs, revisionId));
        && EditDecidable(d.SharingOf(), user.id, user.role)
        && (!CanEdit(d.SharingOf(), user.id, user.role) ==>
              resp == Fail(403, "Not authorized to edit") && unchanged(this) && unchanged(docs))
        && (CanEdit(d.SharingOf(), user.id, user.role) && (target.None? || target.value.documentId != docId) ==>
              resp == Fail(404, "Revision not found") && unchanged(this) && unchanged(docs))
        && (CanEdit(d.SharingOf(), user.id, user.role) && target.Some? && target.value.documentId == docId ==>
              && d.EditorsList().Some? && d.ViewersList().Some?
              && resp == Response(200, DocumentBody(d.ToDict(true)))
              && d.title == target.value.title && d.content == target.value.content
              && d.lastEditedBy == user.name && d.updatedAt == now
              && d.editors == old(d.editors) && d.viewers == old(d.viewers)
              && d.revisions == old(d.revisions) + [RestoreRevisionOf(old(nextRevisionId), d.id, old(d.content),
                                                                      target.value, user.id, user.name,
                                                                      user.email, day, now)]
              && nextRevisionId == old(nextRevisionId) + 1
              && forall j :: 0 <= j < |docs| && j != k ==> unchanged(docs[j]))
    {
      var found := IndexOfId(docs, docId);
      if found.None? {
        return Fail(404, "Document not found");
      }
      var d := docs[found.value];
      WellFormedDecides(d.SharingOf(), user.id, user.role);
      if !CanEdit(d.SharingOf(), user.id, user.role) {
        return Fail(403, "Not authorized to edit");
      }
      resp := RestoreAt(found.value, user, FindRevision(docs, revisionId), day, now);
    }

    /**
     * The end of `POST /documents/<id>/restore/<revision_id>`, once the
     * document at `k` is found and the edit right checked: `target` is what
     * the revision lookup found.
     */
    method RestoreAt(k: nat, user: User, target: Option<Revision>, day: nat -> string, now: nat)
      returns (resp: Response)
      requires Valid() && k < |docs|
      modifies docs[k], this`nextRevisionId, this`revisionOwner
      ensures Valid() && docs[k].editors == old(docs[k].editors) && docs[k].viewers == old(docs[k].viewers)
      ensures forall j :: 0 <= j < |docs| && j != k ==> unchanged(docs[j])
      ensures target.None? || target.value.documentId != docs[k].id ==>
        && resp == Fail(404, "Revision not found") && unchanged(docs[k])
        && nextRevisionId == old(nextRevisionId) && revisionOwner == old(revisionOwner)
      ensures target.Some? && target.value.documentId == docs[k].id ==>
        var d := docs[k];
        && d.EditorsList().Some? && d.ViewersList().Some?
        && resp == Response(200, DocumentBody(d.ToDict(true)))
        && d.title == target.value.title && d.content == target.value.content
        && d.lastEditedBy == user.name && d.updatedAt == now
        && d.revisions == old(d.revisions) + [RestoreRevisionOf(old(nextRevisionId), d.id, old(d.content),
                                                                target.value, user.id, user.name,
                                                                user.email, day, now)]
        && nextRevisionId == old(nextRevisionId) + 1
    {
      var d := docs[k];
      var ok := d.Restore(target, user.id, user.name, user.email, day, nextRevisionId, now);
      if !ok {
        return Fail(404, "Revision not found");
      }
      revisionOwner := revisionOwner[nextRevisionId := Slot(d.id, |old(d.revisions)|)];
      nextRevisionId := nextRevisionId + 1;
      KeepsValid(k);
      WellFormedDecides(d.SharingOf(), user.id, user.role);
      resp := Response(200, DocumentBody(d.ToDict(true)));
    }
  }
}
