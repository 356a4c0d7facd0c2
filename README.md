# Wiki backend document core, in Dafny

This project models the core of a Flask wiki backend:

- documents, their append-only revisions and their sharing lists;
- the positional line-diff estimator that summarises each edit;
- the three permission predicates and the accessible-documents query;
- the document and authentication endpoints, as outcome-returning operations over in-memory stores;
- the user normalisation and the two input-cleaning helpers.

Modules follow the source files:

- `Text` (`text.dfy`): the Python string built-ins the code relies on: `strip`, ASCII `lower`, `split`, `join`, `str(int)` and `int(str)`, and substring tests.
- `Helpers` (`helpers.dfy`): `validate_email` and `sanitize_string`.
- `LineDiff` (`diff.dfy`): `Document.calculate_diff`, as a method with a loop, proved against the closed form `Estimate`.
- `IdList` (`idlist.dfy`): the comma-separated id text behind `get_*_list` and `set_*_list`.
- `Access` (`access.dfy`): `can_edit`, `can_view` and `can_delete` over a document's sharing columns.
- `Revisions` (`revision.dfy`): the revision record, the default of its `changes` column and its `to_dict`.
- `Documents` (`document.dfy`): the `Document` class.
  - Its fields are updated in place by `Update` and `Restore`.
  - Its constructor is `create_document`.
  - The module also holds the change-summary builder.
- `DocumentQuery` (`query.dfy`): `find_all_accessible` over snapshots of the stored rows.
- `DocumentRoutes` (`document_routes.dfy`): the document endpoints, as methods on a `DocumentStore` class.
  - Lookup (404) always comes before the permission check (403), and that before any change.
- `Users` (`user.dfy`): role clamping, e-mail normalisation, `find_by_email`, `to_dict` and the `UserTable` that `create_user` inserts into.
- `AuthRoutes` (`auth_routes.dfy`): `register` and `login`.

## Behaviours kept as the code has them

- **Line separator.** The diff cuts text on the Python literal `'\\n'`. That is two characters, a backslash and the letter n, not a newline. It is modelled that way (`LineDiff.LineSeparator`). Text with real newline characters and no backslash is one line (`LineDiff.NoBackslashIsOneLine`). The frontend sends real newlines, both in the starter text of its create call (frontend/src/components/WikiDashboard.jsx:41) and from its editing textarea (frontend/src/components/WikiDashboard.jsx:167). The estimator never splits on them.
- **Substring filter.** `find_all_accessible` filters non-admins with SQL `LIKE '%id%'` on the sharing texts. It is modelled as written, as substring containment.
  - It is complete: every document the user may view is returned (`DocumentQuery.ViewableIsListed`).
  - It is not sound: user 1 sees a private document whose only editor is user 21 (`DocumentQuery.LikeFilterAdmitsUnviewable`).
- **Any role at registration.** `register` passes the requested role through to `create_user`, which keeps any of the three names. A caller can therefore register as `admin` (`Users.ClampRole`).

## Model

| member | source | states |
|---|---|---|
| `Text.StripLeftFacts` | backend/app/utils/helpers.py:9 | `lstrip` drops exactly a leading run of whitespace: the result is a suffix and does not start with whitespace |
| `Text.StripRightFacts` | backend/app/utils/helpers.py:9 | `rstrip` drops exactly a trailing run of whitespace: the result is a prefix and does not end with whitespace |
| `Text.StripFacts` | backend/app/utils/helpers.py:9 | `strip` gives a slice of its input that neither starts nor ends with whitespace |
| `Text.StripIdempotent` | backend/app/models/user.py:37 | stripping twice is stripping once |
| `Text.StripLowerCommute` | backend/app/models/user.py:38 | `lower().strip()` equals `strip().lower()`, so the route's and the model's normalisations agree |
| `Text.JoinSplit` | backend/app/models/document.py:71-72 | joining the pieces of a split with the separator gives the text back |
| `Text.SplitJoin` | backend/app/models/document.py:35-38 | splitting a join gives the parts back when no part holds the separator's first character |
| `Text.ParseIntToString` | backend/app/models/document.py:35 | `int(str(n)) == n` for every integer, negative ones included |
| `Text.JoinContainsPart` | backend/app/models/document.py:238 | every part of a join occurs in the joined text |
| `Helpers.SecondPieceIsDomainPart` | backend/app/utils/helpers.py:4 | `email.split('@')[1]` is the text between the first '@' and the next '@' or the end |
| `Helpers.ValidateEmail` | backend/app/utils/helpers.py:1-4 | absent or empty gives false; otherwise true iff there is an '@' and the domain part holds a '.' |
| `Helpers.SlicePrefix` | backend/app/utils/helpers.py:11 | `t[:k]` is a prefix of `t` of length `k`, capped at `|t|`, or for negative `k`, `|t|+k` floored at 0 |
| `Helpers.SanitizeString` | backend/app/utils/helpers.py:6-12 | absent or empty gives ""; the result is a prefix of the stripped text; it equals that text when the limit is absent or 0; it equals that text when it fits a positive limit; it is at most a positive limit long, and exactly that long when the stripped text is longer; a negative limit gives the Python slice `t[:limit]`; it never starts with whitespace |
| `IdList.EncodeIdsIsJoin` | backend/app/models/document.py:38 | the encoding is `','.join` of the decimal forms |
| `IdList.EncodeIds` | backend/app/models/document.py:37-38 | `set_*_list`: the decimal forms joined with commas; `IdList.DecodeEncode` is its inverse |
| `IdList.DecodeIds` | backend/app/models/document.py:35 | the comprehension of `get_*_list`: pieces split on ',' with empty pieces skipped, each read by `int()`, `None` where `int()` raises |
| `IdList.EncodeIdsEmpty` | backend/app/models/document.py:38 | the encoding is empty iff the list is empty |
| `IdList.DecodeEncode` | backend/app/models/document.py:35-38 | decoding the encoding of any list of ids, the empty one included, gives the list back |
| `IdList.CanonicalDecodes` | backend/app/models/document.py:35 | a written text decodes without `ValueError` and re-encodes to itself |
| `IdList.MemberOccursInEncoding` | backend/app/models/document.py:238-239 | the decimal form of every listed id occurs in the encoded text |
| `IdList.CanonicalMemberOccurs` | backend/app/models/document.py:238-239 | in a written text, the decimal form of every decoded id occurs in the text |
| `LineDiff.Lines` | backend/app/models/document.py:71-72 | an absent text counts as ""; a split always has at least one piece |
| `LineDiff.Estimate` | backend/app/models/document.py:70-90 | the closed form of `calculate_diff`: lines added past the old end, removed past the new end, differing common indices, and the new line count; `LineDiff.CalculateDiff` is proved equal to it |
| `LineDiff.CalculateDiff` | backend/app/models/document.py:70-90 | the loop's counters equal the closed form: `added = max(0, |new|-|old|)`, `removed = max(0, |old|-|new|)`, `modified` = differing common indices, `total = |new|` |
| `LineDiff.ModifiedCountZero` | backend/app/models/document.py:82-83 | no modified index below `k` iff the first `k` lines agree |
| `LineDiff.EstimateShape` | backend/app/models/document.py:74-89 | at most one of added/removed is non-zero; added − removed is the change in line count; modified ≤ min of the counts; total is the number of pieces of the new text |
| `LineDiff.EstimateOfSelf` | backend/app/models/document.py:77-83 | a text compared with itself has no added, removed or modified line |
| `LineDiff.EstimateNoChange` | backend/app/models/document.py:77-83 | no added, removed or modified line iff the two texts have the same lines |
| `LineDiff.LinesRejoin` | backend/app/models/document.py:71-72 | the lines joined with the separator give the text |
| `LineDiff.NoBackslashIsOneLine` | backend/app/models/document.py:71-72 | text without a backslash, newline characters included, is a single line |
| `LineDiff.EstimateFromEmpty` | backend/app/models/document.py:105 | against "" every line but the first is added, nothing is removed, and the first line is modified unless empty |
| `Access.EditorsRoundTrip` | backend/app/models/document.py:32-38 | `get_editors_list` after `set_editors_list(ids)` gives `ids`, or `[owner_id]` for the empty list |
| `Access.ViewersRoundTrip` | backend/app/models/document.py:40-46 | `get_viewers_list` after `set_viewers_list(ids)` gives `ids` for every list |
| `Access.EditorsFrom` | backend/app/models/document.py:32-35 | `get_editors_list`: `[owner_id]` for an empty text, otherwise the decoded ids |
| `Access.ViewersFrom` | backend/app/models/document.py:40-43 | `get_viewers_list`: `[]` for an empty text, otherwise the decoded ids |
| `Access.CanEdit` | backend/app/models/document.py:199-206 | admin, then owner, then membership of the editors list; its properties are the rights lemmas below |
| `Access.CanView` | backend/app/models/document.py:209-220 | admin, then owner, then the editors list, then the viewers list, then the public flag |
| `Access.CanDelete` | backend/app/models/document.py:223-228 | admin, then owner; no list is read |
| `Access.WellFormedDecides` | backend/app/models/document.py:199-220 | on written sharing texts both lists decode, so the predicates never raise |
| `Access.AdminHasAllRights` | backend/app/models/document.py:199-228 | the admin role makes all three predicates true, even on malformed texts |
| `Access.OwnerHasAllRights` | backend/app/models/document.py:199-228 | the owner holds all three rights, even on malformed texts |
| `Access.RightsHierarchy` | backend/app/models/document.py:199-228 | `can_delete` implies `can_edit`, which implies `can_view` |
| `Access.EditorMayEditNotDelete` | backend/app/models/document.py:204-228 | a listed editor who is not owner or admin may edit and view but not delete |
| `Access.NewDocumentSharing` | backend/app/models/document.py:103 | with editors `[owner]` and no viewers, another non-admin user may neither edit nor delete, and may view iff the document is public |
| `Revisions.Revision.ToDict` | backend/app/models/revision.py:30-46 | `_id` and `authorId` are the decimal strings of the ids and parse back to them; the other fields carry over; the diff block carries the four counts unchanged |
| `Revisions.RestoredFrom` | backend/app/models/revision.py:45 | `None` iff the origin id is absent or 0; otherwise exactly its decimal string, which parses back to it |
| `Documents.SummaryParts` | backend/app/models/document.py:131-139 | the list of components of an update's summary; `Documents.SummaryPartsMeaning` states what it holds |
| `Documents.ChangeSummary` | backend/app/models/document.py:141 | the components joined with ", ", or "Minor edits" when there are none; `Documents.MinorEditsIff` and `Documents.SummarySplitsBack` state its meaning |
| `Documents.EditRevision` | backend/app/models/document.py:129-154 | the revision `update_document` appends; `Documents.EditRevisionFacts` states its content |
| `Documents.CreationRevision` | backend/app/models/document.py:105-118 | the revision `create_document` appends; `Documents.CreationRevisionFacts` states its content |
| `Documents.RestoreRevisionOf` | backend/app/models/document.py:172-186 | the revision `restore_revision` appends; `Documents.RestoreRevisionFacts` states its content |
| `Documents.Document.SetEditorsList` | backend/app/models/document.py:37-38 | the editors text becomes the encoding, and reading it back gives the list, or `[owner_id]` for none |
| `Documents.Document.SetViewersList` | backend/app/models/document.py:45-46 | the viewers text becomes the encoding, and reading it back gives the list |
| `Documents.Document.Create` | backend/app/models/document.py:93-125 | fields from the arguments; last editor is the owner; editors decode to `[owner_id]`, viewers to `[]`; exactly one revision, "Document created", diffed against "" |
| `Documents.Document.Update` | backend/app/models/document.py:128-164 | title, content, last editor and update time become the new values; exactly one revision appended, earlier ones unchanged; sharing unchanged |
| `Documents.Document.Restore` | backend/app/models/document.py:167-196 | refused iff the revision is missing or of another document, with nothing changed; otherwise the target's title and content come back and one revision pointing at the target is appended |
| `Documents.Document.ToDict` | backend/app/models/document.py:48-67 | `_id` and `ownerId` are the decimal strings of the ids and parse back to them; every other key carries its field; decoded sharing lists; revisions listed iff asked for, each as its own `to_dict` |
| `Documents.SummaryPartsShape` | backend/app/models/document.py:131-139 | every summary component starts with its marker and holds no comma |
| `Documents.SummaryPartsMeaning` | backend/app/models/document.py:131-139 | "Title changed", "+N", "-N" and "~N" appear exactly for a changed title and the non-zero counts, title first; their number is the number of such conditions |
| `Documents.SummaryPartsOrdered` | backend/app/models/document.py:132-139 | the components are listed in the order title, `+N`, `-N`, `~N` |
| `Documents.MinorEditsIff` | backend/app/models/document.py:141 | the summary is "Minor edits" iff the title is unchanged and all three counts are 0 |
| `Documents.SummarySplitsBack` | backend/app/models/document.py:141 | a joined summary splits on ", " back into its components |
| `Documents.SummaryOfEstimateHasAtMostThreeParts` | backend/app/models/document.py:129-139 | a summary of a computed diff has at most three components |
| `Documents.UnchangedEditIsMinor` | backend/app/models/document.py:129-141 | saving the same title and content appends a "Minor edits" revision |
| `Documents.EditRevisionFacts` | backend/app/models/document.py:143-154 | the update revision snapshots the new title and content and the author; it is "Minor edits" iff title and lines are unchanged |
| `Documents.CreationRevisionFacts` | backend/app/models/document.py:105-118 | the first revision is "Document created" with the document's title and content, `lines − 1` added and none removed |
| `Documents.RestoreRevisionFacts` | backend/app/models/document.py:172-186 | the restore revision carries the target's snapshot and id and "Restored from <day>"; no counted change iff the lines are equal |
| `Documents.AppendedRevisionsCarryOwnSummary` | backend/app/models/revision.py:14 | the create, update and restore revisions never carry the column default "Content updated": each sets its own summary |
| `DocumentQuery.FilterLike` | backend/app/models/document.py:235-241 | only rows matching the SQL filter are kept, each matching row as many times as in the input |
| `DocumentQuery.MatchesLikeFilter` | backend/app/models/document.py:236-240 | the SQL filter: owner id equal, or the decimal id a substring of the editors or viewers text, or public |
| `DocumentQuery.FilterLikeKeepsMatches` | backend/app/models/document.py:235-241 | every matching row is kept |
| `DocumentQuery.InsertByNewest` | backend/app/models/document.py:242 | inserting into a newest-first sequence keeps it newest-first and adds exactly the one row |
| `DocumentQuery.SortByNewest` | backend/app/models/document.py:242 | the result is newest-first and a permutation of the input |
| `DocumentQuery.FindAllAccessible` | backend/app/models/document.py:231-242 | newest-first; for an admin a permutation of all rows; otherwise a permutation of the rows passing the filter, so each row the filter admits appears exactly as often as it is stored |
| `DocumentQuery.AdminGetsAll` | backend/app/models/document.py:232-233 | an admin gets every stored document, each once |
| `DocumentQuery.ViewableIsListed` | backend/app/models/document.py:231-242 | for written sharing texts, every document `can_view` allows is returned |
| `DocumentQuery.LikeFilterAdmitsUnviewable` | backend/app/models/document.py:238 | the filter admits a private document, with editors "21", for user 1, whom `can_view` refuses |
| `DocumentRoutes.TwoSeparatorsMakeThreeLines` | backend/app/routes/documents.py:56 | two separators between backslash-free texts make three lines, the middle one empty |
| `DocumentRoutes.DefaultContentLines` | backend/app/routes/documents.py:56 | the starter content is three lines: heading, empty line, prompt |
| `DocumentRoutes.IndexOfId` | backend/app/routes/documents.py:33-35 | finds the position of the document with the id, or reports that none has it |
| `DocumentRoutes.FindRevision` | backend/app/models/document.py:168 | a found revision has the id and belongs to some stored document; otherwise no stored revision has the id |
| `DocumentRoutes.DocumentStore.StoredRevisionIdsDistinct` | backend/app/models/revision.py:7 | in a valid store no two stored revisions share an id, within one document or across documents (the primary key) |
| `DocumentRoutes.DocumentStore.RevisionLookupIsUnique` | backend/app/models/document.py:168 | the revision the search finds is the only stored revision with that id, as `Revision.query.get` returns one row |
| `DocumentRoutes.FiledAt` | backend/app/models/revision.py:7-8 | every revision filed under a document carries an id issued to that document at that position |
| `DocumentRoutes.DocumentStore.GetDocuments` | backend/app/routes/documents.py:11-23 | 200; `count` is the number of entries, which are the accessible documents in order, each without revisions and with `revision_count` the number of its revisions |
| `DocumentRoutes.DocumentStore.GetDocument` | backend/app/routes/documents.py:33-43 | 404 iff no document has the id; then 403 iff `can_view` is false; otherwise 200 with the document and its revisions |
| `DocumentRoutes.DocumentStore.CreateDocument` | backend/app/routes/documents.py:49-68 | a viewer gets 403 "Role 'viewer' is not authorized" and nothing changes; otherwise one new document with title "New Document", the starter content and public as defaults, owned by the caller, last edited by the caller, created and updated now, and 201 |
| `DocumentRoutes.DocumentStore.UpdateDocument` | backend/app/routes/documents.py:78-97 | 404, then 403 without `can_edit`, both changing nothing; otherwise absent fields keep the current values, one revision is appended, editors and viewers are unchanged, other documents are unchanged, and an empty body gives "Minor edits" |
| `DocumentRoutes.DocumentStore.DeleteDocument` | backend/app/routes/documents.py:107-118 | 404, then 403 without `can_delete`, both keeping the document; otherwise it leaves the store with its revisions |
| `DocumentRoutes.DocumentStore.RestoreRevision` | backend/app/routes/documents.py:128-146 | 404, then 403 without `can_edit`, then 404 "Revision not found" for a missing or foreign revision, all changing nothing; otherwise the target's title and content, one appended restore revision, editors and viewers unchanged, and 200 |
| `Users.ClampRole` | backend/app/models/user.py:39 | a requested role among admin/editor/viewer is kept; any other becomes viewer |
| `Users.ClampRoleOfName` | backend/app/models/user.py:11 | each stored role name clamps to itself |
| `Users.NormalizeEmail` | backend/app/models/user.py:38 | ASCII lowering then stripping, the stored form of an e-mail; `Users.NormalizeEmailIdempotent` and `Users.RouteNormalisationAgrees` state its properties |
| `Users.NewUser` | backend/app/models/user.py:35-41 | the record `create_user` builds; `Users.NewUserFields` states its fields |
| `Users.User.ToDict` | backend/app/models/user.py:25-32 | id, name, e-mail, role and creation time are exposed; the role is one of the three names; there is no credential field |
| `Users.FindByEmail` | backend/app/models/user.py:47-48 | a found user's e-mail is the normalised argument; none found means no stored e-mail equals it |
| `Users.NewUserFields` | backend/app/models/user.py:35-44 | stored name is stripped, e-mail lowered and stripped, role clamped into the three, and the credential accepts the password |
| `Users.NormalizeEmailIdempotent` | backend/app/models/user.py:48 | normalising a normalised e-mail changes nothing |
| `Users.RouteNormalisationAgrees` | backend/app/routes/auth.py:14 | the route's `strip().lower()` gives the model's normal form of the raw input |
| `Users.FindByEmailFindsVariant` | backend/app/models/user.py:48 | with unique e-mails, every case or padding variant of a stored e-mail finds that user |
| `Users.UserTable.CreateUser` | backend/app/models/user.py:35-44 | a taken e-mail inserts nothing and keeps the next id; otherwise exactly the new record is appended under the next id, which advances by one; e-mails stay unique and ids stay distinct and below the next id |
| `AuthRoutes.RegisterRejection` | backend/app/routes/auth.py:13-28 | each check gives 400 with its message, in order: name shorter than 2, e-mail without '@', password shorter than 6, e-mail taken; no check fires iff all pass |
| `AuthRoutes.Register` | backend/app/routes/auth.py:9-42 | no JSON gives 500; a rejection creates nobody and keeps the next id; otherwise exactly the new user is stored under the next id, the next id advances by one, and 201 opens a session for it; the table stays valid (unique e-mails, distinct ids below the next id) |
| `AuthRoutes.Login` | backend/app/routes/auth.py:45-72 | no JSON gives 500; a missing e-mail or password gives 400; with both present, any answer but 200 (unknown e-mail or wrong password) is the same 401 "Invalid credentials"; 200 iff the normalised e-mail is found and the password checks, with a session for that user |
| `AuthRoutes.RouteEmailIsNormal` | backend/app/routes/auth.py:14 | the e-mail the route passes on is already in normal form |
| `AuthRoutes.SecondRegistrationIsDuplicate` | backend/app/routes/auth.py:27 | once one spelling is registered, another spelling with the same normal form is refused as a duplicate |
| `AuthRoutes.RegisteredUserCanLogIn` | backend/app/routes/auth.py:52-67 | a stored user logs in with any case or padding of the e-mail and the right password |

## Left out

- HTTP, JSON parsing and Flask plumbing. A request body is a datatype of optional fields. A JSON `null` or a non-string value in a field is not modelled.
- The 500 paths of the document endpoints (database and `int()` errors). The store invariant keeps every sharing text as `set_*_list` wrote it, so `int()` never raises there.
- JWT: token signing and verification, the 401 answers of `token_required`, and `get_me`. The current user is a parameter, and a token is its identity alone. Of `roles_required`, only the role gate (backend/app/middleware/auth.py:37-41) is modelled, inside `CreateDocument`.
- bcrypt. A credential holds the password, and checking it is comparison.
- The clock and date formatting. Timestamps are naturals passed in. `strftime('%Y-%m-%d')` is the parameter `day`.
- `format_file_size` (backend/app/utils/helpers.py:14-22): it uses floating-point division and `%.2f`.
- Unicode case mapping. `lower()` is ASCII lowering. Whitespace is Python's `isspace` set, written out.
- The leniency of Python's `int()`: surrounding spaces, `'+'` and `'_'`. Texts written by `set_*_list` never contain these.
- Database mechanics.
  - Revision order. `doc.revisions` is ordered by `Revision.created_at` (backend/app/models/document.py:25-27). The model keeps append order instead. With the clock always moving forward the two agree; ties between equal timestamps are not modelled.
  - Commits are not modelled.
  - Autoincrement ids are counters kept in the stores.
  - The unique index on `email` becomes the `None` result of `CreateUser`.
  - Cascade delete removes a document together with its revisions.
  - `restored_from_id` stays an integer, not a foreign key.
  - The column defaults of the four line counts (backend/app/models/revision.py:16-19). Every revision the core appends sets all four counts from its diff (`Revisions.WithDiff`), so no path takes those defaults.
- AuthRoutes.Register: does not model column widths, because strings are unbounded here. The default database is MySQL (backend/app/__init__.py:20), where a value longer than its `String(n)` column fails the commit. So for a name over 50 or an e-mail over 120 characters (backend/app/models/user.py:8-9) the model answers 201, while a strict-mode server answers 500 "Server error during registration". The document endpoints hit the same limit for a title over 200 characters and a summary over 255; their 500 paths are left out above.
- DocumentQuery.SortByNewest: SQL leaves the order of equal `updated_at` values unspecified. The model fixes one order and states only the newest-first order and the permutation.
- The frontend. Its `canEdit`/`canDelete` (frontend/src/components/WikiDashboard.jsx:76-78) compare `ownerEmail` and disagree with the backend predicates. That frontend code is not part of this model.
