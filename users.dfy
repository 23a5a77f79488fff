/** The user table and `UserService`: registration of a user with a unique
    e-mail and a hashed password, and the two lookups by e-mail and by id. */
module Users {
  import opened Common

  /** The bcrypt cost factor used for every stored password. */
  const SALT_ROUNDS := 10

  /** The result of `bcrypt.hash(secret, saltRounds)`, kept symbolic: the
      model records what was hashed and at which cost, not the digest, and
      it is a different type from the plaintext `string`. */
  datatype PasswordHash = Bcrypt(secret: string, saltRounds: nat)

  /** A row of the user table. */
  datatype User = User(
    id: nat,
    role: string,
    firstName: string,
    lastName: string,
    email: string,
    password: PasswordHash,
    tenantId: Option<int>)

  /** The argument of `create`; `tenantId` may be absent. */
  datatype UserData = UserData(
    firstName: string,
    lastName: string,
    email: string,
    password: string,
    role: string,
    tenantId: Option<int>)

  const EMAIL_EXISTS := HttpError(400, "Email is already exists!")
  const STORE_FAILED := HttpError(500, "Failed to store the data in the database")

  /** `tenantId ? { id: tenantId } : undefined`: a tenant is linked exactly
      when the id is present and not 0. */
  function TenantLink(tenantId: Option<int>): (r: Option<int>)
    ensures r.Some? <==> tenantId.Some? && tenantId.value != 0
    ensures r.Some? ==> r == tenantId
  {
    if tenantId.Some? && tenantId.value != 0 then tenantId else None
  }

  /** The row `create` saves under the generated id `id`. */
  function NewUser(id: nat, data: UserData): User {
    User(id, data.role, data.firstName, data.lastName, data.email,
         Bcrypt(data.password, SALT_ROUNDS), TenantLink(data.tenantId))
  }

  predicate EmailsUnique(users: seq<User>) {
    forall i, j :: 0 <= i < j < |users| ==> users[i].email != users[j].email
  }

  /** `findOne({ where: { email } })`: the first row, in table order, with
      that e-mail, or null. */
  function FindByEmail(users: seq<User>, email: string): (r: Option<User>)
    ensures r.None? <==> forall i :: 0 <= i < |users| ==> users[i].email != email
    ensures r.Some? ==> r.value in users && r.value.email == email
  {
    if users == [] then None
    else if users[0].email == email then Some(users[0])
    else FindByEmail(users[1..], email)
  }

  /** `findOne({ where: { id } })`. */
  function FindById(users: seq<User>, id: nat): (r: Option<User>)
    ensures r.None? <==> forall i :: 0 <= i < |users| ==> users[i].id != id
    ensures r.Some? ==> r.value in users && r.value.id == id
  {
    if users == [] then None
    else if users[0].id == id then Some(users[0])
    else FindById(users[1..], id)
  }

  /** With unique e-mails, the lookup by e-mail finds each user. */
  lemma {:induction false} FindByEmailFindsEach(users: seq<User>, i: nat)
    requires EmailsUnique(users) && i < |users|
    ensures FindByEmail(users, users[i].email) == Some(users[i])
  {
    if i > 0 {
      assert EmailsUnique(users[1..]);
      assert users[1..][i - 1] == users[i];
      FindByEmailFindsEach(users[1..], i - 1);
    }
  }

  /** A user appended under a new e-mail is what the lookup by that e-mail
      then returns, and the e-mails stay unique. */
  lemma {:induction false} AppendNewEmail(users: seq<User>, u: User)
    requires FindByEmail(users, u.email) == None
    ensures FindByEmail(users + [u], u.email) == Some(u)
    ensures EmailsUnique(users) ==> EmailsUnique(users + [u])
  {
    if users != [] {
      assert (users + [u])[1..] == users[1..] + [u];
      AppendNewEmail(users[1..], u);
    } else {
      assert users + [u] == [u];
    }
  }

  /** The user table with its id generator. Ids are handed out in increasing
      order starting at 1, so the table is ordered by id. */
  class UserService {
    var users: seq<User>
    var nextId: nat

    ghost predicate Valid()
      reads this
    {
      && nextId >= 1
      && (forall i :: 0 <= i < |users| ==> 1 <= users[i].id < nextId)
      && (forall i, j :: 0 <= i < j < |users| ==> users[i].id < users[j].id)
    }

    constructor ()
      ensures Valid() && users == [] && nextId == 1
    {
      users := [];
      nextId := 1;
    }

    /** `create`: refuses an e-mail that is already stored, otherwise saves
        one row holding the given names, e-mail and role, the bcrypt hash of
        the password and the tenant link; `saveFails` is the database's
        answer to the insert. */
    method Create(data: UserData, saveFails: bool) returns (r: Result<User>)
      requires Valid()
      modifies this
      ensures Valid()
      ensures FindByEmail(old(users), data.email).Some? ==>
        r == Failure(EMAIL_EXISTS) && users == old(users) && nextId == old(nextId)
      ensures FindByEmail(old(users), data.email).None? && saveFails ==>
        r == Failure(STORE_FAILED) && users == old(users) && nextId == old(nextId)
      ensures FindByEmail(old(users), data.email).None? && !saveFails ==>
        && r == Success(NewUser(old(nextId), data))
        && users == old(users) + [r.value] && nextId == old(nextId) + 1
        && FindByEmail(users, data.email) == Some(r.value)
      ensures EmailsUnique(old(users)) ==> EmailsUnique(users)
    {
      var existing := FindByEmail(users, data.email);
      if existing.Some? {
        return Failure(EMAIL_EXISTS);
      }
      if saveFails {
        return Failure(STORE_FAILED);
      }
      var u := NewUser(nextId, data);
      AppendNewEmail(users, u);
      users := users + [u];
      nextId := nextId + 1;
      r := Success(u);
    }
  }
}
