/**
 * A revision: the immutable snapshot of a document's title and content that
 * every create, update and restore appends, with its diff statistics, and
 * the dictionary its `to_dict` produces.
 */
module Revisions {
  import opened Options
  import opened Text
  import opened LineDiff

  datatype Revision = Revision(
    id: int,
    documentId: int,
    content: string,
    title: string,
    authorId: int,
    authorName: string,
    authorEmail: string,
    changes: string,
    addedLines: int,
    removedLines: int,
    modifiedLines: int,
    totalLines: int,
    restoredFromId: Option<int>,
    createdAt: nat)
  {
    /** `to_dict`. */
    function ToDict(): (d: RevisionDict)
      ensures ParseInt(d.id) == Some(id) && ParseInt(d.authorId) == Some(authorId)
      ensures d.id == IntToString(id) && d.authorId == IntToString(authorId)
      ensures d.content == content && d.title == title && d.changes == changes
      ensures d.authorName == authorName && d.authorEmail == authorEmail && d.createdAt == createdAt
      ensures d.diff.added == addedLines && d.diff.removed == removedLines
      ensures d.diff.modified == modifiedLines && d.diff.totalLines == totalLines
      ensures d.restoredFrom.None? <==> restoredFromId.None? || restoredFromId == Some(0)
      ensures d.restoredFrom.Some? ==> ParseInt(d.restoredFrom.value) == restoredFromId
      ensures d.restoredFrom.Some? ==> d.restoredFrom.value == IntToString(restoredFromId.value)
    {
      ParseIntToString(id);
      ParseIntToString(authorId);
      RevisionDict(
        IntToString(id), content, title, IntToString(authorId), authorName, authorEmail, changes,
        DiffDict(addedLines, removedLines, modifiedLines, totalLines),
        RestoredFrom(restoredFromId),
        createdAt)
    }
  }

  /** `str(restored_from_id) if restored_from_id else None`: the id 0 is falsy too. */
  function RestoredFrom(restoredFromId: Option<int>): (r: Option<string>)
    ensures r.None? <==> restoredFromId.None? || restoredFromId == Some(0)
    ensures r.Some? ==> ParseInt(r.value) == restoredFromId
    ensures r.Some? ==> r.value == IntToString(restoredFromId.value)
  {
    match restoredFromId
    case None => None
    case Some(v) =>
      if v == 0 then None
      else
        ParseIntToString(v);
        Some(IntToString(v))
  }

  datatype DiffDict = DiffDict(added: int, removed: int, modified: int, totalLines: int)

  datatype RevisionDict = RevisionDict(
    id: string,
    content: string,
    title: string,
    authorId: string,
    authorName: string,
    authorEmail: string,
    changes: string,
    diff: DiffDict,
    restoredFrom: Option<string>,
    createdAt: nat)

  /** The default of the `changes` column, for a revision stored without a summary. */
  const DefaultChanges: string := "Content updated"

  /** A revision carrying the statistics of `d` with the given summary. */
  function WithDiff(id: int, documentId: int, content: string, title: string,
                    authorId: int, authorName: string, authorEmail: string,
                    changes: string, d: Diff, restoredFromId: Option<int>, now: nat): Revision
  {
    Revision(id, documentId, content, title, authorId, authorName, authorEmail,
             changes, d.added, d.removed, d.modified, d.totalLines, restoredFromId, now)
  }
}
