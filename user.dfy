/**
 * The user record: role clamping and name/e-mail normalisation at creation,
 * lookup by normalised e-mail, and the public serialisation.
 */
module Users {
  import opened Options
  import opened Text

  datatype Role = Admin | Editor | Viewer

  /** The role's name as stored in the `role` enumeration column. */
  function RoleName(r: Role): string {
    match r
    case Admin => "admin"
    case Editor => "editor"
    case Viewer => "viewer"
  }

  /** `role if role in ['admin', 'editor', 'viewer'] else 'viewer'`. */
  function ClampRole(requested: string): (r: Role)
    ensures requested in ["admin", "editor", "viewer"] ==> RoleName(r) == requested
    ensures requested !in ["admin", "editor", "viewer"] ==> r == Viewer
  {
    if requested == "admin" then Admin
    else if requested == "editor" then Editor
    else Viewer
  }

  /**
   * The stored password credential. Hashing is abstracted: a credential made
   * from a password accepts exactly that password.
   */
  datatype Credential = Hashed(password: string)

  predicate CheckPassword(c: Credential, attempt: string) {
    c.password == attempt
  }

  /** `email.lower().strip()`. */
  function NormalizeEmail(email: string): string {
    Strip(Lower(email))
  }

  /** What `to_dict` exposes: there is no field for the credential. */
  datatype UserDict = UserDict(id: int, name: string, email: string, role: string, createdAt: nat)

  datatype User = User(id: int, name: string, email: string, credential: Credential, role: Role, createdAt: nat) {

    function ToDict(): (d: UserDict)
      ensures d.id == id && d.name == name && d.email == email && d.createdAt == createdAt
      ensures d.role in ["admin", "editor", "viewer"] && ClampRole(d.role) == role
    {
      UserDict(id, name, email, RoleName(role), createdAt)
    }
  }

  /** The record `create_user` builds (its properties: `NewUserFields`). */
  function NewUser(id: int, name: string, email: string, password: string, role: string, now: nat): User {
    User(id, Strip(name), NormalizeEmail(email), Hashed(password), ClampRole(role), now)
  }

  /** `User.query.filter_by(email=email.lower().strip()).first()`. */
  function FindByEmail(users: seq<User>, email: string): (r: Option<User>)
    ensures r.Some? ==> r.value in users && r.value.email == NormalizeEmail(email)
    ensures r.None? ==> forall i :: 0 <= i < |users| ==> users[i].email != NormalizeEmail(email)
  {
    if users == [] then None
    else if users[0].email == NormalizeEmail(email) then Some(users[0])
    else FindByEmail(users[1..], email)
  }

  /** No two users share an e-mail (the unique index on `email`). */
  ghost predicate EmailsUnique(users: seq<User>) {
    forall i, j :: 0 <= i < j < |users| ==> users[i].email != users[j].email
  }

  /** The users table. */
  class UserTable {
    var users: seq<User>
    var nextId: int

    /** E-mails are unique (the unique index), and ids are distinct and below the next id (the primary key). */
    ghost predicate Valid()
      reads this
    {
      && EmailsUnique(users)
      && (forall i :: 0 <= i < |users| ==> users[i].id < nextId)
      && (forall i, j :: 0 <= i < j < |users| ==> users[i].id != users[j].id)
    }

    constructor ()
      ensures Valid() && users == [] && nextId == 1
    {
      users := [];
      nextId := 1;
    }

    /**
     * `create_user`: builds the record and inserts it. The unique index on
     * `email` makes the insert fail (`None`, nothing stored) for an e-mail
     * that is already taken.
     */
    method CreateUser(name: string, email: string, password: string, role: string, now: nat) returns (u: Option<User>)
      requires Valid()
      modifies this
      ensures Valid()
      ensures old(FindByEmail(users, email)).Some? ==> u == None && users == old(users) && nextId == old(nextId)
      ensures old(FindByEmail(users, email)).None? ==>
        && u == Some(NewUser(old(nextId), name, email, password, role, now))
        && users == old(users) + [u.value]
        && nextId == old(nextId) + 1
    {
      if FindByEmail(users, email).Some? {
        return None;
      }
      var user := NewUser(nextId, name, email, password, role, now);
      assert forall i :: 0 <= i < |users| ==> users[i].email != user.email;
      ghost var before := users;
      users := users + [user];
      assert forall i, j :: 0 <= i < j < |users| ==> users[i].email != users[j].email && users[i].id != users[j].id by {
        forall i, j | 0 <= i < j < |users| ensures users[i].email != users[j].email && users[i].id != users[j].id {
          if j < |before| {
            assert users[i] == before[i] && users[j] == before[j];
          } else {
            assert users[i] == before[i] && users[j] == user;
          }
        }
      }
      nextId := nextId + 1;
      u := Some(user);
    }
  }

  // ---------------------------------------------------------------- lemmas

  /**
   * `create_user` stores the stripped name and the normalised e-mail, keeps
   * a requested role only when it is one of the three, and stores a
   * credential accepting the given password.
   */
  lemma NewUserFields(id: int, name: string, email: string, password: string, role: string, now: nat)
    ensures var u := NewUser(id, name, email, password, role, now);
      && u.id == id && u.createdAt == now
      && u.name == Strip(name)
      && u.email == NormalizeEmail(email)
      && RoleName(u.role) in ["admin", "editor", "viewer"]
      && (role in ["admin", "editor", "viewer"] ==> RoleName(u.role) == role)
      && (role !in ["admin", "editor", "viewer"] ==> u.role == Viewer)
      && CheckPassword(u.credential, password)
  {
  }

  lemma ClampRoleOfName(r: Role)
    ensures ClampRole(RoleName(r)) == r
  {
  }

  lemma NormalizeEmailIdempotent(email: string)
    ensures NormalizeEmail(NormalizeEmail(email)) == NormalizeEmail(email)
  {
    var t := Strip(Lower(email));
    StripLowerCommute(t);
    LowerIdempotent(Strip(email));
    StripLowerCommute(email);
    StripIdempotent(Lower(email));
  }

  /** The route's `email.strip().lower()` has the same normal form as the raw input. */
  lemma RouteNormalisationAgrees(raw: string)
    ensures NormalizeEmail(Lower(Strip(raw))) == NormalizeEmail(raw)
    ensures Lower(Strip(raw)) == NormalizeEmail(raw)
  {
    StripLowerCommute(raw);
    NormalizeEmailIdempotent(raw);
  }

  /**
   * Lookup ignores case and surrounding whitespace: every spelling whose
   * normal form is a stored e-mail finds that user.
   */
  lemma {:induction false} FindByEmailFindsVariant(users: seq<User>, k: nat, variant: string)
    requires EmailsUnique(users)
    requires k < |users| && NormalizeEmail(variant) == users[k].email
    ensures FindByEmail(users, variant) == Some(users[k])
  {
    if k > 0 {
      assert users[0].email != users[k].email;
      FindByEmailFindsVariant(users[1..], k - 1, variant);
    }
  }
}
