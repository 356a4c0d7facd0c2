/**
 * The sharing columns of a document and the three permission predicates
 * `can_edit`, `can_view` and `can_delete` decided on them.
 */
module Access {
  import opened Options
  import opened Text
  import opened IdList
  import opened Users

  /** The columns the permission predicates read. */
  datatype Sharing = Sharing(ownerId: int, editors: string, viewers: string, isPublic: bool)

  /**
   * `get_editors_list`: an empty editors text means the owner alone; `None`
   * stands for the `ValueError` that a malformed text raises.
   */
  function EditorsFrom(ownerId: int, editors: string): Option<seq<int>> {
    if editors == [] then Some([ownerId]) else DecodeIds(editors)
  }

  /** `get_viewers_list`: an empty viewers text means nobody. */
  function ViewersFrom(viewers: string): Option<seq<int>> {
    if viewers == [] then Some([]) else DecodeIds(viewers)
  }

  /** `can_edit` reaches the editors list only past the admin and owner checks. */
  predicate EditDecidable(s: Sharing, userId: int, role: Role) {
    role == Admin || s.ownerId == userId || EditorsFrom(s.ownerId, s.editors).Some?
  }

  /** `can_view` reaches the viewers list only past the editors check. */
  predicate ViewDecidable(s: Sharing, userId: int, role: Role) {
    role == Admin || s.ownerId == userId
    || (EditorsFrom(s.ownerId, s.editors).Some?
        && (userId in EditorsFrom(s.ownerId, s.editors).value || ViewersFrom(s.viewers).Some?))
  }

  /** `can_edit`: admin, then owner, then editors list. */
  predicate CanEdit(s: Sharing, userId: int, role: Role)
    requires EditDecidable(s, userId, role)
  {
    role == Admin || s.ownerId == userId || userId in EditorsFrom(s.ownerId, s.editors).value
  }

  /** `can_view`: admin, then owner, then editors list, then viewers list, then public. */
  predicate CanView(s: Sharing, userId: int, role: Role)
    requires ViewDecidable(s, userId, role)
  {
    role == Admin || s.ownerId == userId
    || userId in EditorsFrom(s.ownerId, s.editors).value
    || userId in ViewersFrom(s.viewers).value
    || s.isPublic
  }

  /** `can_delete`: admin, then owner; the sharing lists play no part. */
  predicate CanDelete(s: Sharing, userId: int, role: Role) {
    role == Admin || s.ownerId == userId
  }

  /** Sharing texts that `set_editors_list` / `set_viewers_list` wrote. */
  ghost predicate WellFormed(s: Sharing) {
    Canonical(s.editors) && Canonical(s.viewers)
  }

  // ---------------------------------------------------------------- lemmas

  /** `get_editors_list` after `set_editors_list(ids)`: the ids, or the owner alone for none. */
  lemma EditorsRoundTrip(ownerId: int, ids: seq<int>)
    ensures EditorsFrom(ownerId, EncodeIds(ids)) == Some(if ids == [] then [ownerId] else ids)
  {
    EncodeIdsEmpty(ids);
    DecodeEncode(ids);
  }

  /** `get_viewers_list` after `set_viewers_list(ids)` gives the ids back, for every list. */
  lemma ViewersRoundTrip(ids: seq<int>)
    ensures ViewersFrom(EncodeIds(ids)) == Some(ids)
  {
    EncodeIdsEmpty(ids);
    DecodeEncode(ids);
  }

  /** Every written sharing text decodes, so all three predicates are decided. */
  lemma WellFormedDecides(s: Sharing, userId: int, role: Role)
    requires WellFormed(s)
    ensures EditorsFrom(s.ownerId, s.editors).Some? && ViewersFrom(s.viewers).Some?
    ensures EditDecidable(s, userId, role) && ViewDecidable(s, userId, role)
  {
    CanonicalDecodes(s.editors);
    CanonicalDecodes(s.viewers);
  }

  /** The admin role holds every right, whatever the sharing texts say. */
  lemma AdminHasAllRights(s: Sharing, userId: int)
    ensures EditDecidable(s, userId, Admin) && ViewDecidable(s, userId, Admin)
    ensures CanEdit(s, userId, Admin) && CanView(s, userId, Admin) && CanDelete(s, userId, Admin)
  {
  }

  /** The owner holds every right, whatever the sharing texts say. */
  lemma OwnerHasAllRights(s: Sharing, role: Role)
    ensures EditDecidable(s, s.ownerId, role) && ViewDecidable(s, s.ownerId, role)
    ensures CanEdit(s, s.ownerId, role) && CanView(s, s.ownerId, role) && CanDelete(s, s.ownerId, role)
  {
  }

  /** Delete implies edit, and edit implies view. */
  lemma RightsHierarchy(s: Sharing, userId: int, role: Role)
    requires EditDecidable(s, userId, role) && ViewDecidable(s, userId, role)
    ensures CanDelete(s, userId, role) ==> CanEdit(s, userId, role)
    ensures CanEdit(s, userId, role) ==> CanView(s, userId, role)
  {
  }

  /** A listed editor who is neither owner nor admin may edit and view but not delete. */
  lemma EditorMayEditNotDelete(ownerId: int, editors: seq<int>, viewers: string, isPublic: bool,
                               userId: int, role: Role)
    requires userId in editors && userId != ownerId && role != Admin
    ensures var s := Sharing(ownerId, EncodeIds(editors), viewers, isPublic);
      && EditDecidable(s, userId, role) && ViewDecidable(s, userId, role)
      && CanEdit(s, userId, role) && CanView(s, userId, role) && !CanDelete(s, userId, role)
  {
    EditorsRoundTrip(ownerId, editors);
  }

  /**
   * The sharing a new document gets: editors `[owner]`, no viewers. Unless it
   * is public, nobody but the owner and admins may see it, and only they may
   * edit or delete it.
   */
  lemma NewDocumentSharing(ownerId: int, isPublic: bool, userId: int, role: Role)
    requires userId != ownerId && role != Admin
    ensures var s := Sharing(ownerId, EncodeIds([ownerId]), "", isPublic);
      && WellFormed(s) && EditDecidable(s, userId, role) && ViewDecidable(s, userId, role)
      && !CanEdit(s, userId, role) && !CanDelete(s, userId, role)
      && (CanView(s, userId, role) <==> isPublic)
  {
    EditorsRoundTrip(ownerId, [ownerId]);
    EncodedIsCanonical([ownerId]);
    EncodedIsCanonical([]);
  }
}
