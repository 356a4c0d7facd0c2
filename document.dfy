/**
 * The document aggregate: a record whose title, content, sharing texts and
 * last-editor fields are updated in place, with the append-only sequence of
 * its revisions.
 */
module Documents {
  import opened Options
  import opened Text
  import opened IdList
  import opened LineDiff
  import opened Revisions
  import opened Access

  // ------------------------------------------------------ change summary

  /** The components of an update's summary, in the order they are listed. */
  function SummaryParts(titleChanged: bool, d: Diff): seq<string> {
    (if titleChanged then ["Title changed"] else [])
    + (if d.added > 0 then ["+" + NatToString(d.added)] else [])
    + (if d.removed > 0 then ["-" + NatToString(d.removed)] else [])
    + (if d.modified > 0 then ["~" + NatToString(d.modified)] else [])
  }

  const MinorEdits: string := "Minor edits"

  /** `', '.join(changes) if changes else 'Minor edits'`. */
  function ChangeSummary(titleChanged: bool, d: Diff): string {
    var parts := SummaryParts(titleChanged, d);
    if parts == [] then MinorEdits else Join(parts, ", ")
  }

  /** The revision `update_document` appends. */
  function EditRevision(revisionId: int, documentId: int, oldTitle: string, oldContent: string,
                        title: string, content: string,
                        userId: int, userName: string, userEmail: string, now: nat): Revision
  {
    var d := Estimate(Some(oldContent), Some(content));
    WithDiff(revisionId, documentId, content, title, userId, userName, userEmail,
             ChangeSummary(oldTitle != title, d), d, None, now)
  }

  /** The revision `create_document` appends: diffed against the empty text. */
  function CreationRevision(revisionId: int, documentId: int, title: string, content: string,
                            ownerId: int, ownerName: string, ownerEmail: string, now: nat): Revision
  {
    WithDiff(revisionId, documentId, content, title, ownerId, ownerName, ownerEmail,
             "Document created", Estimate(Some(""), Some(content)), None, now)
  }

  /**
   * The revision `restore_revision` appends: the target's title and content,
   * a summary naming the target's creation day, the target's id as origin.
   */
  function RestoreRevisionOf(revisionId: int, documentId: int, oldContent: string, target: Revision,
                             userId: int, userName: string, userEmail: string,
                             day: nat -> string, now: nat): Revision
  {
    WithDiff(revisionId, documentId, target.content, target.title, userId, userName, userEmail,
             "Restored from " + day(target.createdAt),
             Estimate(Some(oldContent), Some(target.content)), Some(target.id), now)
  }

  // ------------------------------------------------------------- records

  datatype DocumentDict = DocumentDict(
    id: string,
    title: string,
    content: string,
    ownerId: string,
    ownerName: string,
    ownerEmail: string,
    editors: seq<int>,
    viewers: seq<int>,
    lastEditedBy: string,
    isPublic: bool,
    createdAt: nat,
    updatedAt: nat,
    revisions: Option<seq<RevisionDict>>)

  class Document {
    const id: int
    const ownerId: int
    const ownerName: string
    const ownerEmail: string
    const isPublic: bool
    const createdAt: nat
    var title: string
    var content: string
    var editors: string
    var viewers: string
    var lastEditedBy: string
    var updatedAt: nat
    var revisions: seq<Revision>

    /** The columns the permission predicates read. */
    function SharingOf(): Sharing
      reads this
    {
      Sharing(ownerId, editors, viewers, isPublic)
    }

    /** `get_editors_list`. */
    function EditorsList(): Option<seq<int>>
      reads this
    {
      EditorsFrom(ownerId, editors)
    }

    /** `get_viewers_list`. */
    function ViewersList(): Option<seq<int>>
      reads this
    {
      ViewersFrom(viewers)
    }

    /** `set_editors_list`. */
    method SetEditorsList(ids: seq<int>)
      modifies this`editors
      ensures editors == EncodeIds(ids) && Canonical(editors)
      ensures EditorsList() == Some(if ids == [] then [ownerId] else ids)
    {
      editors := EncodeIds(ids);
      EditorsRoundTrip(ownerId, ids);
      EncodedIsCanonical(ids);
    }

    /** `set_viewers_list`. */
    method SetViewersList(ids: seq<int>)
      modifies this`viewers
      ensures viewers == EncodeIds(ids) && Canonical(viewers)
      ensures ViewersList() == Some(ids)
    {
      viewers := EncodeIds(ids);
      ViewersRoundTrip(ids);
      EncodedIsCanonical(ids);
    }

    /**
     * `create_document`: the owner is the only editor, there are no viewers,
     * and the one revision records the content as created from nothing.
     */
    constructor Create(id: int, title: string, content: string, ownerId: int, ownerName: string,
                       ownerEmail: string, isPublic: bool, revisionId: int, now: nat)
      ensures this.id == id && this.title == title && this.content == content
      ensures this.ownerId == ownerId && this.ownerName == ownerName && this.ownerEmail == ownerEmail
      ensures this.isPublic == isPublic && lastEditedBy == ownerName
      ensures createdAt == now && updatedAt == now
      ensures editors == EncodeIds([ownerId]) && viewers == ""
      ensures EditorsList() == Some([ownerId]) && ViewersList() == Some([])
      ensures WellFormed(SharingOf())
      ensures revisions == [CreationRevision(revisionId, id, title, content, ownerId, ownerName, ownerEmail, now)]
    {
      this.id := id;
      this.title := title;
      this.content := content;
      this.ownerId := ownerId;
      this.ownerName := ownerName;
      this.ownerEmail := ownerEmail;
      this.isPublic := isPublic;
      lastEditedBy := ownerName;
      createdAt := now;
      updatedAt := now;
      viewers := "";
      editors := EncodeIds([ownerId]);
      var diff := CalculateDiff(Some(""), Some(content));
      revisions := [WithDiff(revisionId, id, content, title, ownerId, ownerName, ownerEmail,
                             "Document created", diff, None, now)];
      EditorsRoundTrip(ownerId, [ownerId]);
      EncodedIsCanonical([ownerId]);
      EncodedIsCanonical([]);
    }

    /**
     * `update_document`: the new title and content replace the old ones and
     * one revision, summarising the change, is appended.
     */
    method Update(newTitle: string, newContent: string, userId: int, userName: string, userEmail: string,
                  revisionId: int, now: nat)
      modifies this
      ensures title == newTitle && content == newContent
      ensures lastEditedBy == userName && updatedAt == now
      ensures editors == old(editors) && viewers == old(viewers)
      ensures revisions == old(revisions) + [EditRevision(revisionId, id, old(title), old(content),
                                                          newTitle, newContent, userId, userName, userEmail, now)]
    {
      var diff := CalculateDiff(Some(content), Some(newContent));
      var summary := ChangeSummary(title != newTitle, diff);
      var revision := WithDiff(revisionId, id, newContent, newTitle, userId, userName, userEmail,
                               summary, diff, None, now);
      title := newTitle;
      content := newContent;
      lastEditedBy := userName;
      updatedAt := now;
      revisions := revisions + [revision];
    }

    /**
     * `restore_revision`: `target` is what the lookup of the requested
     * revision id found. A missing target, or one of another document, is
     * refused and nothing changes; otherwise the target's title and content
     * come back and one revision recording the restore is appended.
     */
    method Restore(target: Option<Revision>, userId: int, userName: string, userEmail: string,
                   day: nat -> string, revisionId: int, now: nat) returns (ok: bool)
      modifies this
      ensures ok <==> target.Some? && target.value.documentId == id
      ensures !ok ==> unchanged(this)
      ensures ok ==> title == target.value.title && content == target.value.content
                     && lastEditedBy == userName && updatedAt == now
      ensures ok ==> revisions == old(revisions) + [RestoreRevisionOf(revisionId, id, old(content), target.value,
                                                                      userId, userName, userEmail, day, now)]
      ensures editors == old(editors) && viewers == old(viewers)
    {
      if target.None? || target.value.documentId != id {
        return false;
      }
      var revision := target.value;
      var diff := CalculateDiff(Some(content), Some(revision.content));
      var restored := WithDiff(revisionId, id, revision.content, revision.title, userId, userName, userEmail,
                               "Restored from " + day(revision.createdAt), diff, Some(revision.id), now);
      title := revision.title;
      content := revision.content;
      lastEditedBy := userName;
      updatedAt := now;
      revisions := revisions + [restored];
      ok := true;
    }

    /** `to_dict`; the revisions are listed only when asked for. */
    function ToDict(includeRevisions: bool): (d: DocumentDict)
      reads this
      requires EditorsList().Some? && ViewersList().Some?
      ensures ParseInt(d.id) == Some(id) && ParseInt(d.ownerId) == Some(ownerId)
      ensures d.id == IntToString(id) && d.ownerId == IntToString(ownerId)
      ensures d.title == title && d.content == content && d.lastEditedBy == lastEditedBy
      ensures d.ownerName == ownerName && d.ownerEmail == ownerEmail && d.isPublic == isPublic
      ensures d.createdAt == createdAt && d.updatedAt == updatedAt
      ensures d.editors == EditorsList().value && d.viewers == ViewersList().value
      ensures d.revisions.Some? <==> includeRevisions
      ensures d.revisions.Some? ==> |d.revisions.value| == |revisions|
                                    && forall i :: 0 <= i < |revisions| ==> d.revisions.value[i] == revisions[i].ToDict()
    {
      ParseIntToString(id);
      ParseIntToString(ownerId);
      DocumentDict(
        IntToString(id), title, content, IntToString(ownerId), ownerName, ownerEmail,
        EditorsList().value, ViewersList().value, lastEditedBy, isPublic, createdAt, updatedAt,
        if includeRevisions then Some(seq(|revisions|, i requires 0 <= i < |revisions| reads this => revisions[i].ToDict()))
        else None)
    }
  }

  // ---------------------------------------------------------------- lemmas

  /** The first character of a join is the first character of its first part. */
  lemma JoinStartsWithFirstPart(parts: seq<string>, sep: string)
    requires |parts| >= 1 && |parts[0]| >= 1
    ensures |Join(parts, sep)| >= 1 && Join(parts, sep)[0] == parts[0][0]
  {
    if |parts| > 1 {
      assert Join(parts, sep) == parts[0] + sep + Join(parts[1..], sep);
    }
  }

  /** Each component of a summary starts with its own marker and holds no comma. */
  lemma SummaryPartsShape(titleChanged: bool, d: Diff)
    ensures forall p :: p in SummaryParts(titleChanged, d) ==>
      |p| >= 1 && p[0] in "T+-~" && ',' !in p
  {
  }

  /** The place of a summary component in the listing order: title, added, removed, modified. */
  function MarkerRank(p: string): nat {
    if p == [] then 4
    else if p[0] == 'T' then 0
    else if p[0] == '+' then 1
    else if p[0] == '-' then 2
    else if p[0] == '~' then 3
    else 4
  }

  /**
   * The components: "Title changed", "+N", "-N" and "~N" appear exactly for
   * a changed title and the non-zero counts, in that order.
   */
  lemma SummaryPartsMeaning(titleChanged: bool, d: Diff)
    ensures var parts := SummaryParts(titleChanged, d);
      && ("Title changed" in parts <==> titleChanged)
      && ("+" + NatToString(d.added) in parts <==> d.added > 0)
      && ("-" + NatToString(d.removed) in parts <==> d.removed > 0)
      && ("~" + NatToString(d.modified) in parts <==> d.modified > 0)
      && |parts| == (if titleChanged then 1 else 0) + (if d.added > 0 then 1 else 0)
                    + (if d.removed > 0 then 1 else 0) + (if d.modified > 0 then 1 else 0)
      && (titleChanged ==> parts[0] == "Title changed")
      && Ascending(parts)
  {
    var a, r, m := "+" + NatToString(d.added), "-" + NatToString(d.removed), "~" + NatToString(d.modified);
    var tp: seq<string> := if titleChanged then ["Title changed"] else [];
    var ap: seq<string> := if d.added > 0 then [a] else [];
    var rp: seq<string> := if d.removed > 0 then [r] else [];
    var mp: seq<string> := if d.modified > 0 then [m] else [];
    var parts := SummaryParts(titleChanged, d);
    assert parts == tp + ap + rp + mp;
    assert a[0] == '+' && r[0] == '-' && m[0] == '~' && "Title changed"[0] == 'T';
    assert a != "Title changed" && r != "Title changed" && m != "Title changed";
    assert a != r && a != m && r != m;
    SummaryPartsOrdered(titleChanged, d);
  }

  /** The components are listed title first, then added, removed and modified. */
  lemma SummaryPartsOrdered(titleChanged: bool, d: Diff)
    ensures Ascending(SummaryParts(titleChanged, d))
  {
    var a, r, m := "+" + NatToString(d.added), "-" + NatToString(d.removed), "~" + NatToString(d.modified);
    var tp: seq<string> := if titleChanged then ["Title changed"] else [];
    var ap: seq<string> := if d.added > 0 then [a] else [];
    var rp: seq<string> := if d.removed > 0 then [r] else [];
    var mp: seq<string> := if d.modified > 0 then [m] else [];
    assert SummaryParts(titleChanged, d) == tp + ap + rp + mp;
    assert MarkerRank("Title changed") == 0 && MarkerRank(a) == 1 && MarkerRank(r) == 2 && MarkerRank(m) == 3;
    ConcatRanked(tp, ap, 1, 2);
    ConcatRanked(tp + ap, rp, 2, 3);
    ConcatRanked(tp + ap + rp, mp, 3, 4);
  }

  /** Components listed in strictly increasing marker order. */
  predicate Ascending(parts: seq<string>) {
    forall i, j :: 0 <= i < j < |parts| ==> MarkerRank(parts[i]) < MarkerRank(parts[j])
  }

  /** Every component ranks in `[lo, hi)`. */
  predicate RankedIn(parts: seq<string>, lo: nat, hi: nat) {
    forall i :: 0 <= i < |parts| ==> lo <= MarkerRank(parts[i]) < hi
  }

  /**
   * An ascending run ranked below `k` followed by an ascending run ranked in
   * `[k, h)` is an ascending run ranked below `h`.
   */
  lemma ConcatRanked(x: seq<string>, y: seq<string>, k: nat, h: nat)
    requires k <= h && Ascending(x) && Ascending(y) && RankedIn(x, 0, k) && RankedIn(y, k, h)
    ensures Ascending(x + y) && RankedIn(x + y, 0, h)
  {
    forall i, j | 0 <= i < j < |x + y| ensures MarkerRank((x + y)[i]) < MarkerRank((x + y)[j]) {
      if j < |x| {
        assert (x + y)[i] == x[i] && (x + y)[j] == x[j];
      } else if i >= |x| {
        assert (x + y)[i] == y[i - |x|] && (x + y)[j] == y[j - |x|];
      } else {
        assert (x + y)[i] == x[i] && (x + y)[j] == y[j - |x|];
      }
    }
    forall i | 0 <= i < |x + y| ensures MarkerRank((x + y)[i]) < h {
      if i < |x| { assert (x + y)[i] == x[i]; } else { assert (x + y)[i] == y[i - |x|]; }
    }
  }

  /** The summary is "Minor edits" exactly when the title and every count are unchanged. */
  lemma MinorEditsIff(titleChanged: bool, d: Diff)
    ensures ChangeSummary(titleChanged, d) == MinorEdits
        <==> !titleChanged && d.added == 0 && d.removed == 0 && d.modified == 0
  {
    var parts := SummaryParts(titleChanged, d);
    if parts != [] {
      SummaryPartsShape(titleChanged, d);
      assert parts[0] in parts;
      JoinStartsWithFirstPart(parts, ", ");
      assert MinorEdits[0] == 'M';
    }
  }

  /** A joined summary splits back on ", " into its components. */
  lemma SummarySplitsBack(titleChanged: bool, d: Diff)
    requires SummaryParts(titleChanged, d) != []
    ensures Split(ChangeSummary(titleChanged, d), ", ") == SummaryParts(titleChanged, d)
  {
    var parts := SummaryParts(titleChanged, d);
    SummaryPartsShape(titleChanged, d);
    forall i | 0 <= i < |parts| ensures ", "[0] !in parts[i] {
      assert parts[i] in parts;
    }
    SplitJoin(parts, ", ");
  }

  /** Lines are never both added and removed, so a summary has at most three components. */
  lemma SummaryOfEstimateHasAtMostThreeParts(titleChanged: bool, a: Option<string>, b: Option<string>)
    ensures |SummaryParts(titleChanged, Estimate(a, b))| <= 3
  {
    EstimateShape(a, b);
    SummaryPartsMeaning(titleChanged, Estimate(a, b));
  }

  /** Saving the same title and content appends a "Minor edits" revision. */
  lemma UnchangedEditIsMinor(revisionId: int, documentId: int, title: string, content: string,
                             userId: int, userName: string, userEmail: string, now: nat)
    ensures EditRevision(revisionId, documentId, title, content, title, content,
                         userId, userName, userEmail, now).changes == MinorEdits
  {
    EstimateOfSelf(Some(content));
    MinorEditsIff(false, Estimate(Some(content), Some(content)));
  }

  /** The revision of an update snapshots the new title and content and the diff against the old content. */
  lemma EditRevisionFacts(revisionId: int, documentId: int, oldTitle: string, oldContent: string,
                          title: string, content: string,
                          userId: int, userName: string, userEmail: string, now: nat)
    ensures var r := EditRevision(revisionId, documentId, oldTitle, oldContent, title, content,
                                  userId, userName, userEmail, now);
      && r.id == revisionId && r.documentId == documentId && r.title == title && r.content == content
      && r.authorId == userId && r.authorName == userName && r.authorEmail == userEmail
      && r.restoredFromId.None? && r.totalLines == |Lines(Some(content))|
      && (r.changes == MinorEdits <==> oldTitle == title && Lines(Some(oldContent)) == Lines(Some(content)))
  {
    var d := Estimate(Some(oldContent), Some(content));
    MinorEditsIff(oldTitle != title, d);
    EstimateNoChange(Some(oldContent), Some(content));
  }

  /**
   * The revision of a new document: "Document created", the document's own
   * title and content, every line but the first counted as added.
   */
  lemma CreationRevisionFacts(revisionId: int, documentId: int, title: string, content: string,
                              ownerId: int, ownerName: string, ownerEmail: string, now: nat)
    ensures var r := CreationRevision(revisionId, documentId, title, content, ownerId, ownerName, ownerEmail, now);
      && r.changes == "Document created" && r.title == title && r.content == content
      && r.documentId == documentId && r.authorId == ownerId && r.authorName == ownerName
      && r.restoredFromId.None?
      && r.addedLines == |Lines(Some(content))| - 1 && r.removedLines == 0
      && r.totalLines == |Lines(Some(content))|
  {
    EstimateFromEmpty(Some(content));
  }

  /** A restore revision points back at its target and carries the target's snapshot. */
  lemma RestoreRevisionFacts(revisionId: int, documentId: int, oldContent: string, target: Revision,
                             userId: int, userName: string, userEmail: string, day: nat -> string, now: nat)
    ensures var r := RestoreRevisionOf(revisionId, documentId, oldContent, target, userId, userName, userEmail, day, now);
      && r.restoredFromId == Some(target.id) && r.title == target.title && r.content == target.content
      && r.documentId == documentId && r.changes == "Restored from " + day(target.createdAt)
      && (r.addedLines == 0 && r.removedLines == 0 && r.modifiedLines == 0
          <==> Lines(Some(oldContent)) == Lines(Some(target.content)))
  {
    EstimateNoChange(Some(oldContent), Some(target.content));
  }

  /**
   * No revision the document operations append falls back on the column
   * default of `changes`: each one carries its own summary.
   */
  lemma AppendedRevisionsCarryOwnSummary(revisionId: int, documentId: int, oldTitle: string, oldContent: string,
                                         title: string, content: string, target: Revision,
                                         userId: int, userName: string, userEmail: string,
                                         day: nat -> string, now: nat)
    ensures CreationRevision(revisionId, documentId, title, content, userId, userName, userEmail, now).changes
            != DefaultChanges
    ensures EditRevision(revisionId, documentId, oldTitle, oldContent, title, content,
                         userId, userName, userEmail, now).changes != DefaultChanges
    ensures RestoreRevisionOf(revisionId, documentId, oldContent, target, userId, userName, userEmail,
                              day, now).changes != DefaultChanges
  {
    assert DefaultChanges[0] == 'C';
    var d := Estimate(Some(oldContent), Some(content));
    var parts := SummaryParts(oldTitle != title, d);
    if parts != [] {
      SummaryPartsShape(oldTitle != title, d);
      assert parts[0] in parts;
      JoinStartsWithFirstPart(parts, ", ");
    }
    assert ("Restored from " + day(target.createdAt))[0] == 'R';
  }
}
